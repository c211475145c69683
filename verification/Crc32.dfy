/** Division of polynomials over the two-element field, on bit strings written with the
    highest power first.  `g` holds the lower coefficients of the divisor, whose leading
    coefficient is 1: the divisor is x^|g| + g. */
module Gf2Division {
  type Bits = seq<bool>

  function Xor(a: Bits, b: Bits): (r: Bits)
    requires |a| == |b|
    ensures |r| == |a| && forall i :: 0 <= i < |a| ==> r[i] == (a[i] != b[i])
  {
    seq(|a|, i requires 0 <= i < |a| => a[i] != b[i])
  }

  function Zeros(n: nat): (r: Bits)
    ensures |r| == n && forall i :: 0 <= i < n ==> !r[i]
  {
    seq(n, i => false)
  }

  function Ones(n: nat): (r: Bits)
    ensures |r| == n && forall i :: 0 <= i < n ==> r[i]
  {
    seq(n, i => true)
  }

  /** Schoolbook long division: the remainder of `dividend`. */
  function Remainder(dividend: Bits, g: Bits): (r: Bits)
    requires 0 < |g| <= |dividend|
    ensures |r| == |g|
    decreases |dividend|
  {
    if |dividend| == |g| then dividend
    else if dividend[0] then Remainder(Xor(dividend[1..|g| + 1], g) + dividend[|g| + 1..], g)
    else Remainder(dividend[1..], g)
  }

  /** One step of the shift register: shift left, and subtract the divisor if the bit shifted
      out differs from the message bit. */
  function ShiftIn(reg: Bits, bit: bool, g: Bits): (r: Bits)
    requires 0 < |g| == |reg|
    ensures |r| == |g|
    ensures forall i :: 0 <= i < |g| ==>
      r[i] == ((i < |g| - 1 && reg[i + 1]) != (reg[0] != bit && g[i]))
  {
    var shifted := reg[1..] + [false];
    if reg[0] != bit then Xor(shifted, g) else shifted
  }

  function Register(reg: Bits, message: Bits, g: Bits): (r: Bits)
    requires 0 < |g| == |reg|
    ensures |r| == |g|
    decreases |message|
  {
    if message == [] then reg else Register(ShiftIn(reg, message[0], g), message[1..], g)
  }

  lemma {:induction false} RegisterAppend(reg: Bits, a: Bits, b: Bits, g: Bits)
    requires 0 < |g| == |reg|
    ensures Register(reg, a + b, g) == Register(Register(reg, a, g), b, g)
    decreases |a|
  {
    if a == [] {
      assert a + b == b;
    } else {
      assert (a + b)[1..] == a[1..] + b;
      RegisterAppend(ShiftIn(reg, a[0], g), a[1..], b, g);
    }
  }

  /** The message followed by |g| zeros, with the initial register added to its first bits. */
  function Dividend(init: Bits, message: Bits): (d: Bits)
    ensures |d| == |message| + |init|
    ensures forall i :: 0 <= i < |d| ==>
      d[i] == ((i < |init| && init[i]) != (i < |message| && message[i]))
  {
    var padded := message + Zeros(|init|);
    Xor(init, padded[..|init|]) + padded[|init|..]
  }

  /** One step of the register is one step of the division. */
  lemma DividendStep(init: Bits, message: Bits, g: Bits)
    requires 0 < |g| == |init| && message != []
    ensures var d := Dividend(init, message);
      Dividend(ShiftIn(init, message[0], g), message[1..])
        == if d[0] then Xor(d[1..|g| + 1], g) + d[|g| + 1..] else d[1..]
  {
    var w, d := |g|, Dividend(init, message);
    var next := ShiftIn(init, message[0], g);
    var l := Dividend(next, message[1..]);
    var r := if d[0] then Xor(d[1..w + 1], g) + d[w + 1..] else d[1..];
    assert d[0] == (init[0] != message[0]);
    hide Dividend, ShiftIn, Xor;
    assert |l| == |r| == |d| - 1;
    forall i | 0 <= i < |l| ensures l[i] == r[i] {
      assert d[i + 1] == ((i + 1 < w && init[i + 1]) != (i + 1 < |message| && message[i + 1]));
      assert l[i] == ((i < w && next[i]) != (i < |message| - 1 && message[i + 1]));
      if i < w {
        assert r[i] == (d[i + 1] != (d[0] && g[i]));
      } else {
        assert r[i] == d[i + 1];
      }
    }
  }

  /** The shift register computes a remainder of long division. */
  lemma {:induction false} RegisterIsRemainder(init: Bits, message: Bits, g: Bits)
    requires 0 < |g| == |init|
    ensures Register(init, message, g) == Remainder(Dividend(init, message), g)
    decreases |message|
  {
    if message == [] {
      assert Dividend(init, message) == init;
    } else {
      DividendStep(init, message, g);
      RegisterIsRemainder(ShiftIn(init, message[0], g), message[1..], g);
    }
  }

  /** Running the register over its own contents clears it. */
  lemma {:induction false} OwnContentsClear(reg: Bits, n: nat, g: Bits)
    requires 0 < |g| == |reg| && n <= |reg|
    requires forall i :: n <= i < |reg| ==> !reg[i]
    ensures Register(reg, reg[..n], g) == Zeros(|g|)
    decreases n
  {
    if n == 0 {
      assert reg == Zeros(|g|);
    } else {
      var shifted := reg[1..] + [false];
      assert ShiftIn(reg, reg[0], g) == shifted;
      assert reg[..n][1..] == shifted[..n - 1];
      OwnContentsClear(shifted, n - 1, g);
    }
  }

  /** The register step loses nothing when the divisor has constant term 1. */
  lemma StepInjective(a: Bits, b: Bits, bit: bool, g: Bits)
    requires 0 < |g| == |a| == |b| && g[|g| - 1]
    requires ShiftIn(a, bit, g) == ShiftIn(b, bit, g)
    ensures a == b
  {
    var w := |g|;
    var x, y := ShiftIn(a, bit, g), ShiftIn(b, bit, g);
    assert x[w - 1] == (a[0] != bit) && y[w - 1] == (b[0] != bit);
    forall i | 0 < i < w ensures a[i] == b[i] { assert x[i - 1] == y[i - 1]; }
  }

  lemma {:induction false} SameSuffixKeepsDifference(a: Bits, b: Bits, suffix: Bits, g: Bits)
    requires 0 < |g| == |a| == |b| && g[|g| - 1] && a != b
    ensures Register(a, suffix, g) != Register(b, suffix, g)
    decreases |suffix|
  {
    if suffix != [] {
      if ShiftIn(a, suffix[0], g) == ShiftIn(b, suffix[0], g) {
        StepInjective(a, b, suffix[0], g);
      }
      SameSuffixKeepsDifference(ShiftIn(a, suffix[0], g), ShiftIn(b, suffix[0], g), suffix[1..], g);
    }
  }

  /** Registers that meet after n bits agreed on their last |g| - n bits before them. */
  lemma {:induction false} MeetAfter(a: Bits, b: Bits, s: Bits, t: Bits, g: Bits)
    requires 0 < |g| == |a| == |b| && g[|g| - 1]
    requires |s| == |t| < |g|
    requires Register(a, s, g) == Register(b, t, g)
    ensures forall i :: |s| <= i < |g| ==> a[i] == b[i]
    decreases |s|
  {
    if s != [] {
      var w := |g|;
      var x, y := ShiftIn(a, s[0], g), ShiftIn(b, t[0], g);
      MeetAfter(x, y, s[1..], t[1..], g);
      assert x[w - 1] == (a[0] != s[0]) && y[w - 1] == (b[0] != t[0]);
      forall i | |s| <= i < w ensures a[i] == b[i] { assert x[i - 1] == y[i - 1]; }
    }
  }

  /** A difference within |g| consecutive bits always shows in the register. */
  lemma {:induction false} WindowShows(reg: Bits, s: Bits, t: Bits, g: Bits)
    requires 0 < |g| == |reg| && g[|g| - 1]
    requires |s| == |t| <= |g| && s != t
    ensures Register(reg, s, g) != Register(reg, t, g)
    decreases |s|
  {
    if s[0] == t[0] {
      assert s == [s[0]] + s[1..] && t == [t[0]] + t[1..];
      WindowShows(ShiftIn(reg, s[0], g), s[1..], t[1..], g);
    } else {
      var w := |g|;
      var x, y := ShiftIn(reg, s[0], g), ShiftIn(reg, t[0], g);
      assert x[w - 1] != y[w - 1];
      if Register(reg, s, g) == Register(reg, t, g) {
        MeetAfter(x, y, s[1..], t[1..], g);
      }
    }
  }

  /** The messages agree except within the window starting at `p`. */
  predicate DifferInWindow(m: Bits, m': Bits, p: nat, width: nat) {
    && |m| == |m'| && m != m'
    && forall i :: 0 <= i < |m| && !(p <= i < p + width) ==> m[i] == m'[i]
  }

  lemma WindowParts(m: Bits, m': Bits, p: nat, width: nat)
    returns (pre: Bits, x: Bits, y: Bits, post: Bits)
    requires DifferInWindow(m, m', p, width)
    ensures m == pre + (x + post) && m' == pre + (y + post) && |x| == |y| <= width && x != y
  {
    var lo := if p < |m| then p else |m|;
    var hi := if p + width < |m| then p + width else |m|;
    pre, x, y, post := m[..lo], m[lo..hi], m'[lo..hi], m[hi..];
    assert m[..lo] == m'[..lo] && m[hi..] == m'[hi..];
  }

  /** Every burst no wider than the divisor's degree is detected. */
  lemma BurstDetected(init: Bits, m: Bits, m': Bits, p: nat, g: Bits)
    requires 0 < |g| == |init| && g[|g| - 1]
    requires DifferInWindow(m, m', p, |g|)
    ensures Register(init, m, g) != Register(init, m', g)
  {
    var pre, x, y, post := WindowParts(m, m', p, |g|);
    hide *;
    var reg := Register(init, pre, g);
    RegisterAppend(init, pre, x + post, g);
    RegisterAppend(init, pre, y + post, g);
    RegisterAppend(reg, x, post, g);
    RegisterAppend(reg, y, post, g);
    WindowShows(reg, x, y, g);
    SameSuffixKeepsDifference(Register(reg, x, g), Register(reg, y, g), post, g);
  }

  /** A message no longer than the register may be added to it all at once. */
  lemma {:induction false} MessageAtOnce(reg: Bits, message: Bits, g: Bits)
    requires 0 < |g| == |reg| && |message| <= |reg|
    ensures Register(reg, message, g)
      == Register(Xor(reg, message + Zeros(|reg| - |message|)), Zeros(|message|), g)
    decreases |message|
  {
    hide *;
    if message == [] {
      NoMessage(reg, message);
    } else {
      RegisterStep(reg, message, g);
      MessageAtOnce(ShiftIn(reg, message[0], g), message[1..], g);
      MessageStep(reg, message, g);
    }
  }

  lemma MessageStep(reg: Bits, message: Bits, g: Bits)
    requires 0 < |g| == |reg| && 0 < |message| <= |reg|
    ensures Register(Xor(reg, message + Zeros(|reg| - |message|)), Zeros(|message|), g)
      == Register(Xor(ShiftIn(reg, message[0], g), message[1..] + Zeros(|reg| - (|message| - 1))),
                  Zeros(|message| - 1), g)
  {
    hide *;
    ShiftInOfSum(reg, message, g);
    MoreZeros(|message|);
    RegisterStep(Xor(reg, message + Zeros(|reg| - |message|)), Zeros(|message|), g);
  }

  lemma NoMessage(reg: Bits, message: Bits)
    requires message == []
    ensures Xor(reg, message + Zeros(|reg| - |message|)) == reg && Zeros(|message|) == message
  {
  }

  lemma RegisterStep(reg: Bits, m: Bits, g: Bits)
    requires 0 < |g| == |reg| && m != []
    ensures Register(reg, m, g) == Register(ShiftIn(reg, m[0], g), m[1..], g)
  {
  }

  lemma MoreZeros(n: nat)
    requires n > 0
    ensures |Zeros(n)| == n && !Zeros(n)[0] && Zeros(n)[1..] == Zeros(n - 1)
  {
  }

  lemma ShiftInOfSum(reg: Bits, message: Bits, g: Bits)
    requires 0 < |g| == |reg| && 0 < |message| <= |reg|
    ensures ShiftIn(Xor(reg, message + Zeros(|reg| - |message|)), false, g)
      == Xor(ShiftIn(reg, message[0], g), message[1..] + Zeros(|reg| - (|message| - 1)))
  {
    var w, n := |reg|, |message|;
    var padded, moved := message + Zeros(w - n), message[1..] + Zeros(w - (n - 1));
    var sum, next := Xor(reg, padded), ShiftIn(reg, message[0], g);
    var l, r := ShiftIn(sum, false, g), Xor(next, moved);
    hide ShiftIn, Xor;
    assert sum[0] == (reg[0] != message[0]);
    forall i | 0 <= i < w ensures l[i] == r[i] {
      assert moved[i] == (i < w - 1 && padded[i + 1]);
      assert l[i] == ((i < w - 1 && sum[i + 1]) != (sum[0] && g[i]));
      assert next[i] == ((i < w - 1 && reg[i + 1]) != (sum[0] && g[i]));
    }
  }

  /** Shifting zeros in is linear. */
  lemma {:induction false} RegisterLinear(a: Bits, b: Bits, n: nat, g: Bits)
    requires 0 < |g| == |a| == |b|
    ensures Register(Xor(a, b), Zeros(n), g) == Xor(Register(a, Zeros(n), g), Register(b, Zeros(n), g))
    decreases n
  {
    if n > 0 {
      assert ShiftIn(Xor(a, b), false, g) == Xor(ShiftIn(a, false, g), ShiftIn(b, false, g));
      RegisterLinear(ShiftIn(a, false, g), ShiftIn(b, false, g), n - 1, g);
      assert Zeros(n)[1..] == Zeros(n - 1);
    }
  }

  /** Leading zeros shift out without any subtraction. */
  lemma {:induction false} LeadingZerosShiftOut(low: Bits, n: nat, g: Bits)
    requires 0 < |g| == n + |low|
    ensures Register(Zeros(n) + low, Zeros(n), g) == low + Zeros(n)
    decreases n
  {
    if n == 0 {
      assert Zeros(0) + low == low == low + Zeros(0);
    } else {
      assert ShiftIn(Zeros(n) + low, false, g) == Zeros(n - 1) + (low + [false]);
      LeadingZerosShiftOut(low + [false], n - 1, g);
      assert Zeros(n)[1..] == Zeros(n - 1);
      assert (low + [false]) + Zeros(n - 1) == low + Zeros(n);
    }
  }

  lemma SumOfParts(hi: Bits, rest: Bits, message: Bits)
    requires |hi| == |message|
    ensures var w, n := |hi| + |rest|, |hi|;
      var a := Xor(hi, message) + Zeros(w - n);
      && Xor(hi + rest, message + Zeros(w - n)) == Xor(a, Zeros(n) + rest)
      && Xor(Zeros(w), a) == a
  {
  }

  lemma XorCommutes(a: Bits, b: Bits)
    requires |a| == |b|
    ensures Xor(a, b) == Xor(b, a)
  {
  }

  lemma AddMessage(hi: Bits, rest: Bits, message: Bits, g: Bits)
    requires 0 < |g| == |hi| + |rest| && |hi| == |message|
    ensures Register(hi + rest, message, g)
      == Register(Xor(Xor(hi, message) + Zeros(|rest|), Zeros(|hi|) + rest), Zeros(|hi|), g)
  {
    SumOfParts(hi, rest, message);
    MessageAtOnce(hi + rest, message, g);
  }

  lemma FromZero(message: Bits, m: nat, g: Bits)
    requires 0 < |g| == |message| + m
    ensures Register(Zeros(|g|), message, g) == Register(message + Zeros(m), Zeros(|message|), g)
  {
    MessageAtOnce(Zeros(|g|), message, g);
    assert Xor(Zeros(|g|), message + Zeros(m)) == message + Zeros(m);
  }

  /** Why a table works: the leading bits of the register, with the message added to them,
      decide what is subtracted; the other bits only move up. */
  lemma TableForm(hi: Bits, rest: Bits, message: Bits, g: Bits)
    requires 0 < |g| == |hi| + |rest| && |hi| == |message|
    ensures Register(hi + rest, message, g)
      == Xor(rest + Zeros(|hi|), Register(Zeros(|g|), Xor(hi, message), g))
  {
    AddMessage(hi, rest, message, g);
    hide Register, Xor, Zeros;
    var top := Xor(hi, message);
    FromZero(top, |rest|, g);
    RegisterLinear(top + Zeros(|rest|), Zeros(|hi|) + rest, |hi|, g);
    LeadingZerosShiftOut(rest, |hi|, g);
    XorCommutes(Register(Zeros(|g|), top, g), rest + Zeros(|hi|));
  }
}

/** CRC-32 of MPEG transport stream sections (Annex A of ISO/IEC 13818-1). */
module Crc32 {
  import opened Gf2Division

  /** Entries 0x00 to 0x3f of crc32_table. */
  function TableQuarter0(index: bv8): bv32 {
    if index <= 0x0f then (match index
      case 0x00 => 0x00000000 case 0x01 => 0x04c11db7 case 0x02 => 0x09823b6e case 0x03 => 0x0d4326d9
      case 0x04 => 0x130476dc case 0x05 => 0x17c56b6b case 0x06 => 0x1a864db2 case 0x07 => 0x1e475005
      case 0x08 => 0x2608edb8 case 0x09 => 0x22c9f00f case 0x0a => 0x2f8ad6d6 case 0x0b => 0x2b4bcb61
      case 0x0c => 0x350c9b64 case 0x0d => 0x31cd86d3 case 0x0e => 0x3c8ea00a case _ => 0x384fbdbd)
    else if index <= 0x1f then (match index
      case 0x10 => 0x4c11db70 case 0x11 => 0x48d0c6c7 case 0x12 => 0x4593e01e case 0x13 => 0x4152fda9
      case 0x14 => 0x5f15adac case 0x15 => 0x5bd4b01b case 0x16 => 0x569796c2 case 0x17 => 0x52568b75
      case 0x18 => 0x6a1936c8 case 0x19 => 0x6ed82b7f case 0x1a => 0x639b0da6 case 0x1b => 0x675a1011
      case 0x1c => 0x791d4014 case 0x1d => 0x7ddc5da3 case 0x1e => 0x709f7b7a case _ => 0x745e66cd)
    else if index <= 0x2f then (match index
      case 0x20 => 0x9823b6e0 case 0x21 => 0x9ce2ab57 case 0x22 => 0x91a18d8e case 0x23 => 0x95609039
      case 0x24 => 0x8b27c03c case 0x25 => 0x8fe6dd8b case 0x26 => 0x82a5fb52 case 0x27 => 0x8664e6e5
      case 0x28 => 0xbe2b5b58 case 0x29 => 0xbaea46ef case 0x2a => 0xb7a96036 case 0x2b => 0xb3687d81
      case 0x2c => 0xad2f2d84 case 0x2d => 0xa9ee3033 case 0x2e => 0xa4ad16ea case _ => 0xa06c0b5d)
    else (match index
      case 0x30 => 0xd4326d90 case 0x31 => 0xd0f37027 case 0x32 => 0xddb056fe case 0x33 => 0xd9714b49
      case 0x34 => 0xc7361b4c case 0x35 => 0xc3f706fb case 0x36 => 0xceb42022 case 0x37 => 0xca753d95
      case 0x38 => 0xf23a8028 case 0x39 => 0xf6fb9d9f case 0x3a => 0xfbb8bb46 case 0x3b => 0xff79a6f1
      case 0x3c => 0xe13ef6f4 case 0x3d => 0xe5ffeb43 case 0x3e => 0xe8bccd9a case _ => 0xec7dd02d)
  }

  /** Entries 0x40 to 0x7f of crc32_table. */
  function TableQuarter1(index: bv8): bv32 {
    if index <= 0x4f then (match index
      case 0x40 => 0x34867077 case 0x41 => 0x30476dc0 case 0x42 => 0x3d044b19 case 0x43 => 0x39c556ae
      case 0x44 => 0x278206ab case 0x45 => 0x23431b1c case 0x46 => 0x2e003dc5 case 0x47 => 0x2ac12072
      case 0x48 => 0x128e9dcf case 0x49 => 0x164f8078 case 0x4a => 0x1b0ca6a1 case 0x4b => 0x1fcdbb16
      case 0x4c => 0x018aeb13 case 0x4d => 0x054bf6a4 case 0x4e => 0x0808d07d case _ => 0x0cc9cdca)
    else if index <= 0x5f then (match index
      case 0x50 => 0x7897ab07 case 0x51 => 0x7c56b6b0 case 0x52 => 0x71159069 case 0x53 => 0x75d48dde
      case 0x54 => 0x6b93dddb case 0x55 => 0x6f52c06c case 0x56 => 0x6211e6b5 case 0x57 => 0x66d0fb02
      case 0x58 => 0x5e9f46bf case 0x59 => 0x5a5e5b08 case 0x5a => 0x571d7dd1 case 0x5b => 0x53dc6066
      case 0x5c => 0x4d9b3063 case 0x5d => 0x495a2dd4 case 0x5e => 0x44190b0d case _ => 0x40d816ba)
    else if index <= 0x6f then (match index
      case 0x60 => 0xaca5c697 case 0x61 => 0xa864db20 case 0x62 => 0xa527fdf9 case 0x63 => 0xa1e6e04e
      case 0x64 => 0xbfa1b04b case 0x65 => 0xbb60adfc case 0x66 => 0xb6238b25 case 0x67 => 0xb2e29692
      case 0x68 => 0x8aad2b2f case 0x69 => 0x8e6c3698 case 0x6a => 0x832f1041 case 0x6b => 0x87ee0df6
      case 0x6c => 0x99a95df3 case 0x6d => 0x9d684044 case 0x6e => 0x902b669d case _ => 0x94ea7b2a)
    else (match index
      case 0x70 => 0xe0b41de7 case 0x71 => 0xe4750050 case 0x72 => 0xe9362689 case 0x73 => 0xedf73b3e
      case 0x74 => 0xf3b06b3b case 0x75 => 0xf771768c case 0x76 => 0xfa325055 case 0x77 => 0xfef34de2
      case 0x78 => 0xc6bcf05f case 0x79 => 0xc27dede8 case 0x7a => 0xcf3ecb31 case 0x7b => 0xcbffd686
      case 0x7c => 0xd5b88683 case 0x7d => 0xd1799b34 case 0x7e => 0xdc3abded case _ => 0xd8fba05a)
  }

  /** Entries 0x80 to 0xbf of crc32_table. */
  function TableQuarter2(index: bv8): bv32 {
    if index <= 0x8f then (match index
      case 0x80 => 0x690ce0ee case 0x81 => 0x6dcdfd59 case 0x82 => 0x608edb80 case 0x83 => 0x644fc637
      case 0x84 => 0x7a089632 case 0x85 => 0x7ec98b85 case 0x86 => 0x738aad5c case 0x87 => 0x774bb0eb
      case 0x88 => 0x4f040d56 case 0x89 => 0x4bc510e1 case 0x8a => 0x46863638 case 0x8b => 0x42472b8f
      case 0x8c => 0x5c007b8a case 0x8d => 0x58c1663d case 0x8e => 0x558240e4 case _ => 0x51435d53)
    else if index <= 0x9f then (match index
      case 0x90 => 0x251d3b9e case 0x91 => 0x21dc2629 case 0x92 => 0x2c9f00f0 case 0x93 => 0x285e1d47
      case 0x94 => 0x36194d42 case 0x95 => 0x32d850f5 case 0x96 => 0x3f9b762c case 0x97 => 0x3b5a6b9b
      case 0x98 => 0x0315d626 case 0x99 => 0x07d4cb91 case 0x9a => 0x0a97ed48 case 0x9b => 0x0e56f0ff
      case 0x9c => 0x1011a0fa case 0x9d => 0x14d0bd4d case 0x9e => 0x19939b94 case _ => 0x1d528623)
    else if index <= 0xaf then (match index
      case 0xa0 => 0xf12f560e case 0xa1 => 0xf5ee4bb9 case 0xa2 => 0xf8ad6d60 case 0xa3 => 0xfc6c70d7
      case 0xa4 => 0xe22b20d2 case 0xa5 => 0xe6ea3d65 case 0xa6 => 0xeba91bbc case 0xa7 => 0xef68060b
      case 0xa8 => 0xd727bbb6 case 0xa9 => 0xd3e6a601 case 0xaa => 0xdea580d8 case 0xab => 0xda649d6f
      case 0xac => 0xc423cd6a case 0xad => 0xc0e2d0dd case 0xae => 0xcda1f604 case _ => 0xc960ebb3)
    else (match index
      case 0xb0 => 0xbd3e8d7e case 0xb1 => 0xb9ff90c9 case 0xb2 => 0xb4bcb610 case 0xb3 => 0xb07daba7
      case 0xb4 => 0xae3afba2 case 0xb5 => 0xaafbe615 case 0xb6 => 0xa7b8c0cc case 0xb7 => 0xa379dd7b
      case 0xb8 => 0x9b3660c6 case 0xb9 => 0x9ff77d71 case 0xba => 0x92b45ba8 case 0xbb => 0x9675461f
      case 0xbc => 0x8832161a case 0xbd => 0x8cf30bad case 0xbe => 0x81b02d74 case _ => 0x857130c3)
  }

  /** Entries 0xc0 to 0xff of crc32_table. */
  function TableQuarter3(index: bv8): bv32 {
    if index <= 0xcf then (match index
      case 0xc0 => 0x5d8a9099 case 0xc1 => 0x594b8d2e case 0xc2 => 0x5408abf7 case 0xc3 => 0x50c9b640
      case 0xc4 => 0x4e8ee645 case 0xc5 => 0x4a4ffbf2 case 0xc6 => 0x470cdd2b case 0xc7 => 0x43cdc09c
      case 0xc8 => 0x7b827d21 case 0xc9 => 0x7f436096 case 0xca => 0x7200464f case 0xcb => 0x76c15bf8
      case 0xcc => 0x68860bfd case 0xcd => 0x6c47164a case 0xce => 0x61043093 case _ => 0x65c52d24)
    else if index <= 0xdf then (match index
      case 0xd0 => 0x119b4be9 case 0xd1 => 0x155a565e case 0xd2 => 0x18197087 case 0xd3 => 0x1cd86d30
      case 0xd4 => 0x029f3d35 case 0xd5 => 0x065e2082 case 0xd6 => 0x0b1d065b case 0xd7 => 0x0fdc1bec
      case 0xd8 => 0x3793a651 case 0xd9 => 0x3352bbe6 case 0xda => 0x3e119d3f case 0xdb => 0x3ad08088
      case 0xdc => 0x2497d08d case 0xdd => 0x2056cd3a case 0xde => 0x2d15ebe3 case _ => 0x29d4f654)
    else if index <= 0xef then (match index
      case 0xe0 => 0xc5a92679 case 0xe1 => 0xc1683bce case 0xe2 => 0xcc2b1d17 case 0xe3 => 0xc8ea00a0
      case 0xe4 => 0xd6ad50a5 case 0xe5 => 0xd26c4d12 case 0xe6 => 0xdf2f6bcb case 0xe7 => 0xdbee767c
      case 0xe8 => 0xe3a1cbc1 case 0xe9 => 0xe760d676 case 0xea => 0xea23f0af case 0xeb => 0xeee2ed18
      case 0xec => 0xf0a5bd1d case 0xed => 0xf464a0aa case 0xee => 0xf9278673 case _ => 0xfde69bc4)
    else (match index
      case 0xf0 => 0x89b8fd09 case 0xf1 => 0x8d79e0be case 0xf2 => 0x803ac667 case 0xf3 => 0x84fbdbd0
      case 0xf4 => 0x9abc8bd5 case 0xf5 => 0x9e7d9662 case 0xf6 => 0x933eb0bb case 0xf7 => 0x97ffad0c
      case 0xf8 => 0xafb010b1 case 0xf9 => 0xab710d06 case 0xfa => 0xa6322bdf case 0xfb => 0xa2f33668
      case 0xfc => 0xbcb4666d case 0xfd => 0xb8757bda case 0xfe => 0xb5365d03 case _ => 0xb1f740b4)
  }

  /** crc32_table, indexed by an unsigned char. */
  function Crc32Table(index: bv8): bv32 {
    if index < 0x40 then TableQuarter0(index) else if index < 0x80 then TableQuarter1(index)
    else if index < 0xc0 then TableQuarter2(index) else TableQuarter3(index)
  }

  /** A byte as the eight highest coefficients. */
  function AtTop(b: bv8): bv32 { (b as bv32) << 24 }

  const POLYNOMIAL: bv32 := 0x04c11db7

  /** Shift out the leading coefficient and subtract the polynomial if it was 1. */
  function ShiftOut(reg: bv32): bv32 {
    if reg & 0x80000000 != 0 then (reg << 1) ^ POLYNOMIAL else reg << 1
  }

  function ShiftOut8(reg: bv32): bv32 {
    ShiftOut(ShiftOut(ShiftOut(ShiftOut(ShiftOut(ShiftOut(ShiftOut(ShiftOut(reg))))))))
  }

  lemma Quarter0Entry(index: bv8)
    requires 0x00 <= index <= 0x3f
    ensures TableQuarter0(index) == ShiftOut8(AtTop(index))
  {
    match index
      case 0x00 => case 0x01 => case 0x02 => case 0x03 => case 0x04 => case 0x05 => case 0x06 => case 0x07 =>
      case 0x08 => case 0x09 => case 0x0a => case 0x0b => case 0x0c => case 0x0d => case 0x0e => case 0x0f =>
      case 0x10 => case 0x11 => case 0x12 => case 0x13 => case 0x14 => case 0x15 => case 0x16 => case 0x17 =>
      case 0x18 => case 0x19 => case 0x1a => case 0x1b => case 0x1c => case 0x1d => case 0x1e => case 0x1f =>
      case 0x20 => case 0x21 => case 0x22 => case 0x23 => case 0x24 => case 0x25 => case 0x26 => case 0x27 =>
      case 0x28 => case 0x29 => case 0x2a => case 0x2b => case 0x2c => case 0x2d => case 0x2e => case 0x2f =>
      case 0x30 => case 0x31 => case 0x32 => case 0x33 => case 0x34 => case 0x35 => case 0x36 => case 0x37 =>
      case 0x38 => case 0x39 => case 0x3a => case 0x3b => case 0x3c => case 0x3d => case 0x3e => case _ =>
  }

  lemma Quarter1Entry(index: bv8)
    requires 0x40 <= index <= 0x7f
    ensures TableQuarter1(index) == ShiftOut8(AtTop(index))
  {
    match index
      case 0x40 => case 0x41 => case 0x42 => case 0x43 => case 0x44 => case 0x45 => case 0x46 => case 0x47 =>
      case 0x48 => case 0x49 => case 0x4a => case 0x4b => case 0x4c => case 0x4d => case 0x4e => case 0x4f =>
      case 0x50 => case 0x51 => case 0x52 => case 0x53 => case 0x54 => case 0x55 => case 0x56 => case 0x57 =>
      case 0x58 => case 0x59 => case 0x5a => case 0x5b => case 0x5c => case 0x5d => case 0x5e => case 0x5f =>
      case 0x60 => case 0x61 => case 0x62 => case 0x63 => case 0x64 => case 0x65 => case 0x66 => case 0x67 =>
      case 0x68 => case 0x69 => case 0x6a => case 0x6b => case 0x6c => case 0x6d => case 0x6e => case 0x6f =>
      case 0x70 => case 0x71 => case 0x72 => case 0x73 => case 0x74 => case 0x75 => case 0x76 => case 0x77 =>
      case 0x78 => case 0x79 => case 0x7a => case 0x7b => case 0x7c => case 0x7d => case 0x7e => case _ =>
  }

  lemma Quarter2Entry(index: bv8)
    requires 0x80 <= index <= 0xbf
    ensures TableQuarter2(index) == ShiftOut8(AtTop(index))
  {
    match index
      case 0x80 => case 0x81 => case 0x82 => case 0x83 => case 0x84 => case 0x85 => case 0x86 => case 0x87 =>
      case 0x88 => case 0x89 => case 0x8a => case 0x8b => case 0x8c => case 0x8d => case 0x8e => case 0x8f =>
      case 0x90 => case 0x91 => case 0x92 => case 0x93 => case 0x94 => case 0x95 => case 0x96 => case 0x97 =>
      case 0x98 => case 0x99 => case 0x9a => case 0x9b => case 0x9c => case 0x9d => case 0x9e => case 0x9f =>
      case 0xa0 => case 0xa1 => case 0xa2 => case 0xa3 => case 0xa4 => case 0xa5 => case 0xa6 => case 0xa7 =>
      case 0xa8 => case 0xa9 => case 0xaa => case 0xab => case 0xac => case 0xad => case 0xae => case 0xaf =>
      case 0xb0 => case 0xb1 => case 0xb2 => case 0xb3 => case 0xb4 => case 0xb5 => case 0xb6 => case 0xb7 =>
      case 0xb8 => case 0xb9 => case 0xba => case 0xbb => case 0xbc => case 0xbd => case 0xbe => case _ =>
  }

  lemma Quarter3Entry(index: bv8)
    requires 0xc0 <= index <= 0xff
    ensures TableQuarter3(index) == ShiftOut8(AtTop(index))
  {
    match index
      case 0xc0 => case 0xc1 => case 0xc2 => case 0xc3 => case 0xc4 => case 0xc5 => case 0xc6 => case 0xc7 =>
      case 0xc8 => case 0xc9 => case 0xca => case 0xcb => case 0xcc => case 0xcd => case 0xce => case 0xcf =>
      case 0xd0 => case 0xd1 => case 0xd2 => case 0xd3 => case 0xd4 => case 0xd5 => case 0xd6 => case 0xd7 =>
      case 0xd8 => case 0xd9 => case 0xda => case 0xdb => case 0xdc => case 0xdd => case 0xde => case 0xdf =>
      case 0xe0 => case 0xe1 => case 0xe2 => case 0xe3 => case 0xe4 => case 0xe5 => case 0xe6 => case 0xe7 =>
      case 0xe8 => case 0xe9 => case 0xea => case 0xeb => case 0xec => case 0xed => case 0xee => case 0xef =>
      case 0xf0 => case 0xf1 => case 0xf2 => case 0xf3 => case 0xf4 => case 0xf5 => case 0xf6 => case 0xf7 =>
      case 0xf8 => case 0xf9 => case 0xfa => case 0xfb => case 0xfc => case 0xfd => case 0xfe => case _ =>
  }

  /** Every entry of the table is the remainder of its index times x^32. */
  lemma TableEntry(index: bv8)
    ensures Crc32Table(index) == ShiftOut8(AtTop(index))
  {
    hide ShiftOut8, TableQuarter0, TableQuarter1, TableQuarter2, TableQuarter3;
    if index < 0x40 { Quarter0Entry(index); }
    else if index < 0x80 { Quarter1Entry(index); }
    else if index < 0xc0 { Quarter2Entry(index); }
    else { Quarter3Entry(index); }
  }

  // ------------------------------------------------- words as bit strings

  predicate Leading(x: bv32) { x & 0x80000000 != 0 }

  function Twice(x: bv32): bv32 { x << 1 }

  /** Addition of polynomials. */
  function Add(x: bv32, y: bv32): bv32 { x ^ y }

  function Up8(x: bv32): bv32 { x << 8 }

  /** The n most significant bits of a word, the most significant first. */
  function TopBits(x: bv32, n: nat): (r: Bits)
    ensures |r| == n
    decreases n
  {
    if n == 0 then [] else [Leading(x)] + TopBits(Twice(x), n - 1)
  }

  /** The coefficients of a register, highest power first. */
  function WordBits(x: bv32): (r: Bits)
    ensures |r| == 32
  {
    TopBits(x, 32)
  }

  /** The bits of a byte, most significant first. */
  function ByteBits(b: bv8): (r: Bits)
    ensures |r| == 8
  {
    TopBits(AtTop(b), 8)
  }

  /** The bits of a buffer in transmission order. */
  function MessageBits(bytes: seq<bv8>): (r: Bits)
    ensures |r| == 8 * |bytes|
  {
    if bytes == [] then [] else ByteBits(bytes[0]) + MessageBits(bytes[1..])
  }

  function Divisor(): (g: Bits)
    ensures |g| == 32
  {
    WordBits(POLYNOMIAL)
  }

  function ShiftLeft(x: bv32, n: nat): bv32
    decreases n
  {
    if n == 0 then x else ShiftLeft(Twice(x), n - 1)
  }

  // Facts about single words

  lemma AddLeading(x: bv32, y: bv32)
    ensures Leading(Add(x, y)) == (Leading(x) != Leading(y))
  {
    hide Twice;
  }

  lemma AddTwice(x: bv32, y: bv32)
    ensures Twice(Add(x, y)) == Add(Twice(x), Twice(y))
  {
    hide Leading;
  }

  lemma AddParts(x: bv32, y: bv32)
    ensures Leading(Add(x, y)) == (Leading(x) != Leading(y))
    ensures Twice(Add(x, y)) == Add(Twice(x), Twice(y))
  {
    hide *;
    AddLeading(x, y);
    AddTwice(x, y);
  }

  lemma ShiftOutParts(x: bv32)
    ensures ShiftOut(x) == if Leading(x) then Add(Twice(x), POLYNOMIAL) else Twice(x)
  {
  }

  lemma Up8IsEightTwices(x: bv32)
    ensures Twice(Twice(Twice(Twice(Twice(Twice(Twice(Twice(x)))))))) == Up8(x)
  {
  }

  lemma Up8Clears(x: bv32, b: bv8)
    ensures Up8(Up8(Up8(Up8(x)))) == 0 && Up8(AtTop(b)) == 0
    ensures !Leading(0) && Twice(0) == 0
  {
  }

  // Shifting and splitting

  lemma ShiftLeft8(x: bv32, n: nat)
    ensures ShiftLeft(x, n + 8) == ShiftLeft(Up8(x), n)
  {
    Up8IsEightTwices(x);
    hide Twice, Up8;
    var y := Twice(Twice(x));
    assert ShiftLeft(x, n + 8) == ShiftLeft(y, n + 6);
    var z := Twice(Twice(y));
    assert ShiftLeft(y, n + 6) == ShiftLeft(z, n + 4);
    var u := Twice(Twice(z));
    assert ShiftLeft(z, n + 4) == ShiftLeft(u, n + 2);
  }

  lemma ShiftLeft32(x: bv32)
    ensures ShiftLeft(x, 32) == 0
  {
    hide Up8, Twice, ShiftLeft;
    ShiftLeft8(x, 24);
    ShiftLeft8(Up8(x), 16);
    ShiftLeft8(Up8(Up8(x)), 8);
    ShiftLeft8(Up8(Up8(Up8(x))), 0);
    Up8Clears(x, 0);
    ShiftLeftNone(Up8(Up8(Up8(Up8(x)))));
  }

  lemma ShiftLeftNone(x: bv32)
    ensures ShiftLeft(x, 0) == x
  {
  }

  lemma {:induction false} TopBitsSplit(x: bv32, a: nat, b: nat)
    ensures TopBits(x, a + b) == TopBits(x, a) + TopBits(ShiftLeft(x, a), b)
    decreases a
  {
    hide Twice, Leading;
    if a > 0 {
      TopBitsSplit(Twice(x), a - 1, b);
    } else {
      assert [] + TopBits(x, b) == TopBits(x, b);
    }
  }

  lemma {:induction false} TopBitsZero(n: nat)
    ensures TopBits(0, n) == Zeros(n)
    decreases n
  {
    Up8Clears(0, 0);
    hide Twice, Leading, Up8, AtTop;
    if n > 0 {
      TopBitsZero(n - 1);
    }
  }

  lemma {:induction false} TopBitsAdd(x: bv32, y: bv32, n: nat)
    ensures TopBits(Add(x, y), n) == Xor(TopBits(x, n), TopBits(y, n))
    decreases n
  {
    hide Twice, Leading, Add;
    if n > 0 {
      TopBitsAdd(Twice(x), Twice(y), n - 1);
      AddParts(x, y);
    }
  }

  lemma TopBitsTwice(x: bv32, n: nat)
    requires 0 < n && ShiftLeft(x, n) == 0
    ensures TopBits(x, n) == [Leading(x)] + TopBits(Twice(x), n - 1)
    ensures TopBits(Twice(x), n) == TopBits(Twice(x), n - 1) + [false]
  {
    hide Twice, Leading;
    TopBitsSplit(Twice(x), n - 1, 1);
    TopBitsZero(1);
  }

  lemma WordTwice(x: bv32)
    ensures WordBits(x)[0] == Leading(x)
    ensures WordBits(Twice(x)) == WordBits(x)[1..] + [false]
  {
    hide TopBits, ShiftLeft, Twice, Leading;
    ShiftLeft32(x);
    TopBitsTwice(x, 32);
  }

  /** One step on words is one step on bit strings. */
  lemma ShiftOutIsShiftIn(x: bv32)
    ensures WordBits(ShiftOut(x)) == ShiftIn(WordBits(x), false, Divisor())
  {
    hide Twice, Leading, Add, ShiftOut, TopBits;
    WordTwice(x);
    TopBitsAdd(Twice(x), POLYNOMIAL, 32);
    ShiftOutParts(x);
  }

  function ShiftOutN(x: bv32, n: nat): bv32
    decreases n
  {
    if n == 0 then x else ShiftOutN(ShiftOut(x), n - 1)
  }

  lemma {:induction false} ShiftOutsAreShiftIns(x: bv32, n: nat)
    ensures WordBits(ShiftOutN(x, n)) == Register(WordBits(x), Zeros(n), Divisor())
    decreases n
  {
    hide WordBits, ShiftOut, ShiftIn, Divisor;
    if n > 0 {
      ShiftOutIsShiftIn(x);
      ShiftOutsAreShiftIns(ShiftOut(x), n - 1);
      assert Zeros(n)[1..] == Zeros(n - 1);
    }
  }

  lemma ShiftOutEight(x: bv32)
    ensures ShiftOutN(x, 8) == ShiftOut8(x)
  {
    hide ShiftOut;
    var y := ShiftOut(ShiftOut(x));
    assert ShiftOutN(x, 8) == ShiftOutN(y, 6);
    var z := ShiftOut(ShiftOut(y));
    assert ShiftOutN(y, 6) == ShiftOutN(z, 4);
    var u := ShiftOut(ShiftOut(z));
    assert ShiftOutN(z, 4) == ShiftOutN(u, 2);
    assert ShiftOutN(u, 2) == ShiftOut(ShiftOut(u));
  }

  /** The rest of a word after its first byte. */
  lemma WordAfterByte(x: bv32)
    ensures TopBits(x, 32) == TopBits(x, 8) + TopBits(Up8(x), 24)
    ensures WordBits(Up8(x)) == TopBits(Up8(x), 24) + Zeros(8)
  {
    hide Up8, Twice, Leading, TopBits, ShiftLeft;
    TopBitsSplit(x, 8, 24);
    ShiftLeft8(x, 0);
    ShiftLeftNone(Up8(x));
    TopBitsSplit(Up8(x), 24, 8);
    ShiftLeft32(x);
    ShiftLeft8(x, 24);
    TopBitsZero(8);
  }

  /** A byte at the top of a word is its eight bits followed by zeros. */
  lemma ByteAtTop(b: bv8)
    ensures WordBits(AtTop(b)) == ByteBits(b) + Zeros(24)
  {
    hide Up8, TopBits, AtTop;
    WordAfterByte(AtTop(b));
    Up8Clears(0, b);
    TopBitsZero(24);
  }

  /** An entry of the table is the register after its index, from zero. */
  lemma TableEntryBits(index: bv8)
    ensures WordBits(Crc32Table(index)) == Register(Zeros(32), ByteBits(index), Divisor())
  {
    hide WordBits, Crc32Table, ShiftOut8, AtTop, Register, Divisor, ByteBits;
    TableEntry(index);
    ShiftOutEight(AtTop(index));
    ShiftOutsAreShiftIns(AtTop(index), 8);
    ByteAtTop(index);
    FromZero(ByteBits(index), 24, Divisor());
  }

  // ------------------------------------------------- the table form

  function TableIndex(reg: bv32, b: bv8): bv8 {
    (((reg >> 24) ^ (b as bv32)) & 0xff) as bv8
  }

  /** The body of the loop: one byte at a time, through the table. */
  function TableStep(reg: bv32, b: bv8): bv32 {
    Add(Up8(reg), Crc32Table(TableIndex(reg, b)))
  }

  function Low24(x: bv32): bv32 { x & 0x00ffffff }

  lemma IndexCancels(reg: bv32, b: bv8)
    ensures Add(Add(AtTop(TableIndex(reg, b)), Low24(reg)), Add(reg, AtTop(b))) == 0
  {
  }

  lemma CancelsMeansEqual(x: bv32, y: bv32)
    requires Add(x, y) == 0
    ensures x == y
  {
  }

  lemma IndexAtTop(reg: bv32, b: bv8)
    ensures Add(AtTop(TableIndex(reg, b)), Low24(reg)) == Add(reg, AtTop(b))
  {
    hide *;
    IndexCancels(reg, b);
    CancelsMeansEqual(Add(AtTop(TableIndex(reg, b)), Low24(reg)), Add(reg, AtTop(b)));
  }

  lemma LowLeading(x: bv32)
    ensures var y := Twice(Twice(Low24(x)));
      var z := Twice(Twice(y));
      var u := Twice(Twice(z));
      && !Leading(Low24(x)) && !Leading(Twice(Low24(x))) && !Leading(y) && !Leading(Twice(y))
      && !Leading(z) && !Leading(Twice(z)) && !Leading(u) && !Leading(Twice(u))
  {
  }

  lemma LowTopBits(x: bv32)
    ensures TopBits(Low24(x), 8) == Zeros(8)
  {
    LowLeading(x);
    hide Twice, Leading, Low24;
    var y := Twice(Twice(Low24(x)));
    var z := Twice(Twice(y));
    var u := Twice(Twice(z));
    assert TopBits(u, 2) == [false, false];
    assert TopBits(z, 4) == [false, false] + TopBits(u, 2);
    assert TopBits(y, 6) == [false, false] + TopBits(z, 4);
    assert TopBits(Low24(x), 8) == [false, false] + TopBits(y, 6);
  }

  /** The index of the table lookup is the first byte of the register plus the message byte. */
  lemma IndexBits(reg: bv32, b: bv8)
    ensures ByteBits(TableIndex(reg, b)) == Xor(TopBits(reg, 8), ByteBits(b))
  {
    hide Twice, Leading, Low24, Add, AtTop, TableIndex, TopBits;
    IndexAtTop(reg, b);
    TopBitsAdd(AtTop(TableIndex(reg, b)), Low24(reg), 8);
    TopBitsAdd(reg, AtTop(b), 8);
    LowTopBits(reg);
    assert Xor(ByteBits(TableIndex(reg, b)), Zeros(8)) == ByteBits(TableIndex(reg, b));
  }

  /** One byte through the table is eight bits through the division. */
  lemma TableStepIsEightBits(reg: bv32, b: bv8)
    ensures WordBits(TableStep(reg, b)) == Register(WordBits(reg), ByteBits(b), Divisor())
  {
    hide Crc32Table, Register, Divisor, ByteBits, TableIndex, Up8, Add, TopBits;
    var index := TableIndex(reg, b);
    TopBitsAdd(Up8(reg), Crc32Table(index), 32);
    WordAfterByte(reg);
    IndexBits(reg, b);
    TableEntryBits(index);
    TableForm(TopBits(reg, 8), TopBits(Up8(reg), 24), ByteBits(b), Divisor());
  }

  // ------------------------------------------------- the checksum and its guarantees

  /** The CRC of a message: the remainder of the message followed by 32 zero bits, with its
      first 32 bits complemented, on division by the CRC-32 polynomial. */
  function CrcBits(message: Bits): (r: Bits)
    ensures |r| == 32
  {
    Remainder(Dividend(Ones(32), message), Divisor())
  }

  lemma CrcIsRegister(message: Bits)
    ensures CrcBits(message) == Register(Ones(32), message, Divisor())
  {
    hide Register, Remainder, Divisor;
    RegisterIsRemainder(Ones(32), message, Divisor());
  }

  lemma {:induction false} MessageBitsAppend(a: seq<bv8>, b: seq<bv8>)
    ensures MessageBits(a + b) == MessageBits(a) + MessageBits(b)
  {
    hide ByteBits;
    if a == [] {
      assert a + b == b;
    } else {
      assert (a + b)[1..] == a[1..] + b;
      MessageBitsAppend(a[1..], b);
    }
  }

  lemma ByteThenRest(x: bv32, n: nat)
    ensures TopBits(x, n + 8) == TopBits(x, 8) + TopBits(Up8(x), n)
  {
    hide Up8, Twice, Leading, TopBits, ShiftLeft;
    TopBitsSplit(x, 8, n);
    ShiftLeft8(x, 0);
    ShiftLeftNone(Up8(x));
  }

  lemma OnesLeading(x: bv32)
    requires x & 0xff000000 == 0xff000000
    ensures var y := Twice(Twice(x));
      var z := Twice(Twice(y));
      var u := Twice(Twice(z));
      && Leading(x) && Leading(Twice(x)) && Leading(y) && Leading(Twice(y))
      && Leading(z) && Leading(Twice(z)) && Leading(u) && Leading(Twice(u))
  {
  }

  lemma OnesTopBits(x: bv32)
    requires x & 0xff000000 == 0xff000000
    ensures TopBits(x, 8) == Ones(8)
  {
    OnesLeading(x);
    hide Twice, Leading;
    var y := Twice(Twice(x));
    var z := Twice(Twice(y));
    var u := Twice(Twice(z));
    assert TopBits(u, 2) == [true, true];
    assert TopBits(z, 4) == [true, true] + TopBits(u, 2);
    assert TopBits(y, 6) == [true, true] + TopBits(z, 4);
    assert TopBits(x, 8) == [true, true] + TopBits(y, 6);
  }

  lemma AllOnes()
    ensures WordBits(0xffffffff) == Ones(32)
  {
    var x: bv32 := 0xffffffff;
    var y, z, u := Up8(x), Up8(Up8(x)), Up8(Up8(Up8(x)));
    OnesTopBits(x); OnesTopBits(y); OnesTopBits(z); OnesTopBits(u);
    ByteThenRest(x, 24); ByteThenRest(y, 16); ByteThenRest(z, 8);
    hide TopBits, Up8;
    assert Ones(8) + (Ones(8) + (Ones(8) + Ones(8))) == Ones(32);
  }

  /** The loop of Crc32Calculate as a function of the bytes. */
  function CrcFrom(reg: bv32, bytes: seq<bv8>): bv32
    decreases |bytes|
  {
    if bytes == [] then reg else CrcFrom(TableStep(reg, bytes[0]), bytes[1..])
  }

  function Crc(bytes: seq<bv8>): bv32 { CrcFrom(0xffffffff, bytes) }

  lemma {:induction false} CrcFromSnoc(reg: bv32, bytes: seq<bv8>, b: bv8)
    ensures CrcFrom(reg, bytes + [b]) == TableStep(CrcFrom(reg, bytes), b)
    decreases |bytes|
  {
    hide TableStep;
    if bytes == [] {
      assert ([b])[1..] == [];
      assert CrcFrom(TableStep(reg, b), []) == TableStep(reg, b);
    } else {
      assert (bytes + [b])[1..] == bytes[1..] + [b];
      CrcFromSnoc(TableStep(reg, bytes[0]), bytes[1..], b);
    }
  }

  lemma {:induction false} CrcFromIsRegister(reg: bv32, bytes: seq<bv8>)
    ensures WordBits(CrcFrom(reg, bytes)) == Register(WordBits(reg), MessageBits(bytes), Divisor())
    decreases |bytes|
  {
    hide WordBits, ByteBits, Divisor, TableStep, ShiftIn;
    if bytes != [] {
      TableStepIsEightBits(reg, bytes[0]);
      CrcFromIsRegister(TableStep(reg, bytes[0]), bytes[1..]);
      RegisterAppend(WordBits(reg), ByteBits(bytes[0]), MessageBits(bytes[1..]), Divisor());
    }
  }

  /** The table-driven loop computes the CRC. */
  lemma CrcIsRemainder(bytes: seq<bv8>)
    ensures WordBits(Crc(bytes)) == CrcBits(MessageBits(bytes))
  {
    hide WordBits, CrcFrom, Register, Divisor, CrcBits, MessageBits;
    AllOnes();
    CrcFromIsRegister(0xffffffff, bytes);
    CrcIsRegister(MessageBits(bytes));
  }

  /** Crc32Calculate on the first `size` bytes of `buffer`. */
  method Crc32Calculate(buffer: array<bv8>, size: nat) returns (crc32_reg: bv32)
    requires size <= buffer.Length
    ensures crc32_reg == Crc(buffer[..size])
    ensures WordBits(crc32_reg) == CrcBits(MessageBits(buffer[..size]))
  {
    hide WordBits, Crc32Table, CrcBits, MessageBits, TableStep;
    crc32_reg := 0xffffffff;
    var cntByte := 0;
    assert buffer[..0] == [];
    while cntByte < size
      invariant 0 <= cntByte <= size
      invariant crc32_reg == CrcFrom(0xffffffff, buffer[..cntByte])
    {
      assert buffer[..cntByte + 1] == buffer[..cntByte] + [buffer[cntByte]];
      CrcFromSnoc(0xffffffff, buffer[..cntByte], buffer[cntByte]);
      crc32_reg := TableStep(crc32_reg, buffer[cntByte]);
      cntByte := cntByte + 1;
    }
    CrcIsRemainder(buffer[..size]);
  }

  // Words and bytes are determined by their bits

  lemma ZeroAfterTwice(x: bv32)
    requires !Leading(x) && Twice(x) == 0
    ensures x == 0
  {
  }

  lemma {:induction false} ZeroBitsZero(x: bv32, n: nat)
    requires TopBits(x, n) == Zeros(n) && ShiftLeft(x, n) == 0
    ensures x == 0
    decreases n
  {
    hide Leading, Twice;
    if n > 0 {
      assert Leading(x) == TopBits(x, n)[0];
      assert TopBits(Twice(x), n - 1) == TopBits(x, n)[1..] == Zeros(n - 1);
      ZeroBitsZero(Twice(x), n - 1);
      ZeroAfterTwice(x);
    }
  }

  lemma WordBitsInjective(x: bv32, y: bv32)
    requires WordBits(x) == WordBits(y)
    ensures x == y
  {
    var z := Add(x, y);
    hide TopBits, ShiftLeft, Add;
    TopBitsAdd(x, y, 32);
    assert TopBits(z, 32) == Zeros(32);
    ShiftLeft32(z);
    ZeroBitsZero(z, 32);
    AddZero(x, y);
  }

  lemma AddZero(x: bv32, y: bv32)
    requires Add(x, y) == 0
    ensures x == y
  {
    CancelsMeansEqual(x, y);
  }

  lemma AtTopInjective(b: bv8, c: bv8)
    requires AtTop(b) == AtTop(c)
    ensures b == c
  {
  }

  lemma ByteBitsInjective(b: bv8, c: bv8)
    requires ByteBits(b) == ByteBits(c)
    ensures b == c
  {
    hide AtTop, ByteBits, WordBits;
    ByteAtTop(b);
    ByteAtTop(c);
    WordBitsInjective(AtTop(b), AtTop(c));
    AtTopInjective(b, c);
  }

  lemma {:induction false} MessageBitsInjective(a: seq<bv8>, b: seq<bv8>)
    requires |a| == |b| && MessageBits(a) == MessageBits(b)
    ensures a == b
    decreases |a|
  {
    hide ByteBits;
    if a != [] {
      assert ByteBits(a[0]) == MessageBits(a)[..8] == MessageBits(b)[..8] == ByteBits(b[0]);
      assert MessageBits(a[1..]) == MessageBits(a)[8..] == MessageBits(b)[8..] == MessageBits(b[1..]);
      ByteBitsInjective(a[0], b[0]);
      MessageBitsInjective(a[1..], b[1..]);
      assert a == [a[0]] + a[1..] && b == [b[0]] + b[1..];
    }
  }

  /** The bytes of a word, most significant first. */
  function BigEndian(x: bv32): seq<bv8> {
    [TopByte(x), TopByte(Up8(x)), TopByte(Up8(Up8(x))), TopByte(Up8(Up8(Up8(x))))]
  }

  function TopByte(x: bv32): bv8 { (x >> 24) as bv8 }

  lemma TopByteIsIndex(x: bv32)
    ensures TableIndex(x, 0) == TopByte(x) && AtTop(0) == 0
  {
  }

  lemma TopByteBits(x: bv32)
    ensures ByteBits(TopByte(x)) == TopBits(x, 8)
  {
    TopByteIsIndex(x);
    hide TopBits, TopByte, TableIndex, AtTop;
    IndexBits(x, 0);
    TopBitsZero(8);
  }

  lemma BigEndianBits(x: bv32)
    ensures MessageBits(BigEndian(x)) == WordBits(x)
  {
    hide TopBits, Up8, TopByte, ByteBits;
    var y, z, u := Up8(x), Up8(Up8(x)), Up8(Up8(Up8(x)));
    TopByteBits(x); TopByteBits(y); TopByteBits(z); TopByteBits(u);
    ByteThenRest(x, 24); ByteThenRest(y, 16); ByteThenRest(z, 8);
    var bytes := BigEndian(x);
    assert bytes[1..] == [TopByte(y), TopByte(z), TopByte(u)];
    assert bytes[1..][1..] == [TopByte(z), TopByte(u)];
    assert bytes[1..][1..][1..] == [TopByte(u)];
    assert MessageBits([TopByte(u)]) == TopBits(u, 8);
    assert MessageBits([TopByte(z), TopByte(u)]) == TopBits(z, 16);
    assert MessageBits([TopByte(y), TopByte(z), TopByte(u)]) == TopBits(y, 24);
  }

  /** A section followed by its own CRC, most significant byte first, has CRC zero. */
  lemma OwnCrcGivesZero(bytes: seq<bv8>)
    ensures Crc(bytes + BigEndian(Crc(bytes))) == 0
  {
    hide *;
    var crc := Crc(bytes);
    CrcBitsOf(bytes);
    CrcBitsOf(bytes + BigEndian(crc));
    MessageBitsAppend(bytes, BigEndian(crc));
    BigEndianBits(crc);
    RegisterAppend(Ones(32), MessageBits(bytes), WordBits(crc), Divisor());
    var r := WordBits(crc);
    assert r[..32] == r;
    OwnContentsClear(r, 32, Divisor());
    ZeroWord();
    WordBitsInjective(Crc(bytes + BigEndian(crc)), 0);
  }

  lemma ZeroWord()
    ensures WordBits(0) == Zeros(32)
  {
    TopBitsZero(32);
  }

  lemma CrcBitsOf(bytes: seq<bv8>)
    ensures WordBits(Crc(bytes)) == Register(Ones(32), MessageBits(bytes), Divisor())
  {
    CrcIsRemainder(bytes);
    CrcIsRegister(MessageBits(bytes));
  }

  lemma DivisorOdd()
    ensures Divisor()[31]
  {
    var x := Up8(Up8(Up8(POLYNOMIAL)));
    var y := Twice(Twice(Twice(Twice(x))));
    var z := Twice(Twice(Twice(y)));
    assert Leading(z);
    hide Twice, Leading, Up8;
    ByteThenRest(POLYNOMIAL, 24);
    ByteThenRest(Up8(POLYNOMIAL), 16);
    ByteThenRest(Up8(Up8(POLYNOMIAL)), 8);
    assert TopBits(x, 8)[4..] == TopBits(y, 4);
    assert TopBits(y, 4)[3..] == TopBits(z, 1);
  }

  /** Two messages whose bits differ only within 32 consecutive positions, aligned or not,
      never share a CRC. */
  lemma BurstChangesCrc(a: seq<bv8>, b: seq<bv8>, p: nat)
    requires DifferInWindow(MessageBits(a), MessageBits(b), p, 32)
    ensures Crc(a) != Crc(b)
  {
    DivisorOdd();
    hide *;
    CrcBitsOf(a);
    CrcBitsOf(b);
    BurstDetected(Ones(32), MessageBits(a), MessageBits(b), p, Divisor());
  }

  /** Two buffers of one length that differ only inside four consecutive bytes never share
      a CRC. */
  lemma FourByteChangeDetected(a: seq<bv8>, b: seq<bv8>, p: nat)
    requires |a| == |b| && a != b
    requires forall i :: 0 <= i < |a| && !(p <= i < p + 4) ==> a[i] == b[i]
    ensures Crc(a) != Crc(b)
  {
    hide *;
    var q := if p < |a| then p else |a|;
    var e := if p + 4 < |a| then p + 4 else |a|;
    var pre, x, y, post := a[..q], a[q..e], b[q..e], a[e..];
    assert a == pre + (x + post);
    assert b == pre + (y + post) by { assert a[..q] == b[..q] && a[e..] == b[e..]; }
    MessageBitsAppend(pre, x + post);
    MessageBitsAppend(pre, y + post);
    MessageBitsAppend(x, post);
    MessageBitsAppend(y, post);
    if MessageBits(x) == MessageBits(y) {
      MessageBitsInjective(x, y);
    }
    WindowOfConcat(MessageBits(pre), MessageBits(x), MessageBits(y), MessageBits(post), 32);
    BurstChangesCrc(a, b, |MessageBits(pre)|);
  }

  lemma WindowOfConcat(pre: Bits, x: Bits, y: Bits, post: Bits, width: nat)
    requires |x| == |y| <= width && x != y
    ensures DifferInWindow(pre + (x + post), pre + (y + post), |pre|, width)
  {
    var m, m' := pre + (x + post), pre + (y + post);
    assert m[|pre|..|pre| + |x|] == x && m'[|pre|..|pre| + |x|] == y;
  }
}
