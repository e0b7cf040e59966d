// The checksum of logs and tables (util/crc32c.cc, util/crc32c.h; section 12.1 of RFC 3720).

module Crc32c {

  type Byte = bv8
  type Word = bv32

  const ONES: Word := 0xffff_ffff
  // The Castagnoli polynomial, bits reversed.
  const POLYNOMIAL: Word := 0x82f6_3b78
  const MASK_DELTA: Word := 0xa282_ead8

  function Xor(a: Word, b: Word): Word { a ^ b }

  // ---- One bit, one byte ----

  function Feedback(l: Word): Word { if l & 1 == 1 then POLYNOMIAL else 0 }

  function Half(l: Word): Word { l >> 1 }

  // One step of division: a zero bit of data.
  function Bit(l: Word): Word { Xor(Half(l), Feedback(l)) }

  function Bits(n: nat, l: Word): Word { if n == 0 then l else Bits(n - 1, Bit(l)) }

  function Low(l: Word): Byte { (l & 0xff) as bv8 }

  function Wide(b: Byte): Word { b as bv32 }

  function Above(l: Word): Word { l >> 8 }

  function Mix(l: Word, b: Byte): Byte { Low(l) ^ b }

  // What the byte table holds at b.
  function ByteExtension(b: Byte): Word { Bits(8, Wide(b)) }

  function Step(l: Word, b: Byte): Word { Xor(ByteExtension(Mix(l, b)), Above(l)) }

  // ---- The byte-at-a-time form ----

  function Fold(l: Word, data: seq<Byte>): Word
    decreases |data|
  {
    if data == [] then l else Fold(Step(l, data[0]), data[1..])
  }

  function Extended(crc: Word, data: seq<Byte>): Word { Xor(Fold(Xor(crc, ONES), data), ONES) }

  function Value(data: seq<Byte>): Word { Extended(0, data) }

  lemma {:induction false} FoldAppend(l: Word, a: seq<Byte>, b: seq<Byte>)
    ensures Fold(l, a + b) == Fold(Fold(l, a), b)
    decreases |a|
  {
    hide Step;
    if a == [] {
      assert a + b == b;
    } else {
      assert (a + b)[1..] == a[1..] + b;
      FoldAppend(Step(l, a[0]), a[1..], b);
    }
  }

  // A checksum can be computed piece by piece.
  lemma ExtendComposes(crc: Word, a: seq<Byte>, b: seq<Byte>)
    ensures Extended(Extended(crc, a), b) == Extended(crc, a + b)
  {
    hide Fold, Xor;
    FoldAppend(Xor(crc, ONES), a, b);
    XorTwice(Fold(Xor(crc, ONES), a), ONES);
  }

  // ---- Division is linear ----

  lemma XorTwice(a: Word, b: Word)
    ensures Xor(Xor(a, b), b) == a
  {
  }

  lemma XorSwap(a: Word, b: Word, c: Word, d: Word)
    ensures Xor(Xor(a, b), Xor(c, d)) == Xor(Xor(a, c), Xor(b, d))
  {
    hide Xor;
    XorAssoc(a, b, Xor(c, d));
    XorAssoc(b, c, d);
    XorComm(b, c);
    XorAssoc(c, b, d);
    XorAssoc(a, c, Xor(b, d));
  }

  lemma XorAssoc(a: Word, b: Word, c: Word)
    ensures Xor(Xor(a, b), c) == Xor(a, Xor(b, c))
  {
  }

  lemma XorComm(a: Word, b: Word)
    ensures Xor(a, b) == Xor(b, a)
  {
  }

  lemma Parity(a: Word, b: Word)
    ensures a & 1 == 0 || a & 1 == 1
    ensures (a ^ b) & 1 == (a & 1) ^ (b & 1)
  {
  }

  lemma FeedbackLinear(a: Word, b: Word)
    ensures Feedback(Xor(a, b)) == Xor(Feedback(a), Feedback(b))
  {
    Parity(a, b);
    Parity(b, a);
    if a & 1 == 1 {
      assert b & 1 == 0 ==> (a ^ b) & 1 == 1;
    }
  }

  lemma HalfLinear(a: Word, b: Word)
    ensures Half(Xor(a, b)) == Xor(Half(a), Half(b))
  {
  }

  lemma BitLinear(a: Word, b: Word)
    ensures Bit(Xor(a, b)) == Xor(Bit(a), Bit(b))
  {
    hide Feedback, Half, Xor;
    FeedbackLinear(a, b);
    HalfLinear(a, b);
    XorSwap(Half(a), Half(b), Feedback(a), Feedback(b));
  }

  lemma {:induction false} BitsLinear(n: nat, a: Word, b: Word)
    ensures Bits(n, Xor(a, b)) == Xor(Bits(n, a), Bits(n, b))
    decreases n
  {
    hide Bit, Xor;
    if n == 0 {
    } else {
      BitLinear(a, b);
      BitsLinear(n - 1, Bit(a), Bit(b));
    }
  }

  lemma {:induction false} BitsAdd(m: nat, n: nat, l: Word)
    ensures Bits(m, Bits(n, l)) == Bits(m + n, l)
    decreases n
  {
    hide Bit;
    if n == 0 {
    } else {
      BitsAdd(m, n - 1, Bit(l));
    }
  }

  lemma EvenBit(l: Word)
    requires l & 1 == 0
    ensures Bit(l) == Half(l)
  {
  }

  // Bits above the ones shifted out are not touched by the polynomial.
  lemma TwoBits(l: Word)
    requires l & 3 == 0
    ensures Bits(2, l) == l >> 2
  {
    hide Bit;
    LowTwo(l);
    EvenBit(l);
    EvenBit(Half(l));
    assert Bits(2, l) == Bits(1, Bit(l));
  }

  lemma LowTwo(l: Word)
    requires l & 3 == 0
    ensures l & 1 == 0 && Half(l) & 1 == 0 && Half(Half(l)) == l >> 2
  {
  }

  lemma FourBits(l: Word)
    requires l & 0xf == 0
    ensures Bits(4, l) == l >> 4
  {
    hide Bits;
    LowFour(l);
    TwoBits(l);
    TwoBits(l >> 2);
    BitsAdd(2, 2, l);
  }

  lemma LowFour(l: Word)
    requires l & 0xf == 0
    ensures l & 3 == 0 && (l >> 2) & 3 == 0 && (l >> 2) >> 2 == l >> 4
  {
  }

  lemma HighByte(l: Word)
    requires l & 0xff == 0
    ensures Bits(8, l) == Above(l)
  {
    hide Bits;
    LowEight(l);
    FourBits(l);
    FourBits(l >> 4);
    BitsAdd(4, 4, l);
  }

  lemma LowEight(l: Word)
    requires l & 0xff == 0
    ensures l & 0xf == 0 && (l >> 4) & 0xf == 0 && (l >> 4) >> 4 == Above(l)
  {
  }

  // A byte of data enters at the low end before eight zero bits are shifted in.
  lemma StepIsBits(l: Word, b: Byte)
    ensures Step(l, b) == Bits(8, Xor(l, Wide(b)))
  {
    hide Bits, Xor, Mix, Wide, Above;
    var high := l & 0xffff_ff00;
    Halves(l, b);
    BitsLinear(8, Wide(Mix(l, b)), high);
    HighByte(high);
  }

  lemma Halves(l: Word, b: Byte)
    ensures Xor(l, Wide(b)) == Xor(Wide(Mix(l, b)), l & 0xffff_ff00)
    ensures (l & 0xffff_ff00) & 0xff == 0 && Above(l & 0xffff_ff00) == Above(l)
  {
  }

  // ---- Words ----

  function Up1(b: Byte): Word { Wide(b) << 8 }

  function Up2(b: Byte): Word { Wide(b) << 16 }

  function Up3(b: Byte): Word { Wide(b) << 24 }

  function Xor4(a: Word, b: Word, c: Word, d: Word): Word { Xor(Xor(a, b), Xor(c, d)) }

  // DecodeFixed32: four bytes, the least significant first.
  function Lane(b0: Byte, b1: Byte, b2: Byte, b3: Byte): Word {
    Wide(b0) | (Wide(b1) << 8) | (Wide(b2) << 16) | (Wide(b3) << 24)
  }

  lemma LaneIsXor(b0: Byte, b1: Byte, b2: Byte, b3: Byte)
    ensures Lane(b0, b1, b2, b3) == Xor4(Wide(b0), Up1(b1), Up2(b2), Up3(b3))
  {
  }

  lemma Ups(b: Byte)
    ensures Bits(8, Up1(b)) == Wide(b) && Bits(8, Up2(b)) == Up1(b) && Bits(8, Up3(b)) == Up2(b)
  {
    hide Bits;
    UpsClear(b);
    HighByte(Up1(b));
    HighByte(Up2(b));
    HighByte(Up3(b));
  }

  lemma UpsClear(b: Byte)
    ensures Up1(b) & 0xff == 0 && Up2(b) & 0xff == 0 && Up3(b) & 0xff == 0
    ensures Above(Up1(b)) == Wide(b) && Above(Up2(b)) == Up1(b) && Above(Up3(b)) == Up2(b)
  {
  }

  // Data may enter higher up, before the shifts that bring it down.
  lemma StepAfter(n: nat, l: Word, b: Byte, up: Word)
    requires Bits(n, up) == Wide(b)
    ensures Step(Bits(n, l), b) == Bits(8 + n, Xor(l, up))
  {
    hide Bits, Xor, Step, Wide;
    StepIsBits(Bits(n, l), b);
    BitsLinear(n, l, up);
    BitsAdd(8, n, Xor(l, up));
  }

  // Four bytes are one word.
  lemma FoldWord(l: Word, b0: Byte, b1: Byte, b2: Byte, b3: Byte)
    ensures Fold(l, [b0, b1, b2, b3]) == Bits(32, Xor(l, Lane(b0, b1, b2, b3)))
  {
    hide Bits, Xor, Step, Wide, Lane, Up1, Up2, Up3;
    StepIsBits(l, b0);
    Ups(b1);
    Ups(b2);
    Ups(b3);
    BitsAdd(8, 8, Up2(b2));
    BitsAdd(8, 8, Up3(b3));
    BitsAdd(8, 16, Up3(b3));
    var l0 := Xor(l, Wide(b0));
    StepAfter(8, l0, b1, Up1(b1));
    StepAfter(16, Xor(l0, Up1(b1)), b2, Up2(b2));
    StepAfter(24, Xor(Xor(l0, Up1(b1)), Up2(b2)), b3, Up3(b3));
    LaneIsXor(b0, b1, b2, b3);
    XorAssoc(l, Wide(b0), Up1(b1));
    XorAssoc(l, Xor(Wide(b0), Up1(b1)), Up2(b2));
    XorAssoc(l, Xor(Xor(Wide(b0), Up1(b1)), Up2(b2)), Up3(b3));
    XorAssoc(Xor(Wide(b0), Up1(b1)), Up2(b2), Up3(b3));
    FoldFour(l, b0, b1, b2, b3);
  }

  lemma FoldFour(l: Word, b0: Byte, b1: Byte, b2: Byte, b3: Byte)
    ensures Fold(l, [b0, b1, b2, b3]) == Step(Step(Step(Step(l, b0), b1), b2), b3)
  {
    hide Step;
    assert [b0, b1, b2, b3][1..] == [b1, b2, b3] && [b1, b2, b3][1..] == [b2, b3];
    var l2 := Step(Step(l, b0), b1);
    assert Fold(l, [b0, b1, b2, b3]) == Fold(Step(l, b0), [b1, b2, b3]);
    assert Fold(Step(l, b0), [b1, b2, b3]) == Fold(l2, [b2, b3]);
    assert [b2, b3][1..] == [b3] && [b3][1..] == [];
    assert Fold(l2, [b2, b3]) == Fold(Step(l2, b2), [b3]);
    assert Fold(Step(l2, b2), [b3]) == Fold(Step(Step(l2, b2), b3), []);
  }

  // ---- Four interleaved strides ----

  // The byte table and, for each byte of a word, what it becomes sixteen bytes further on.
  datatype Tables = Tables(byteExtension: Byte -> Word, stride0: Byte -> Word, stride1: Byte -> Word,
    stride2: Byte -> Word,
                           stride3: Byte -> Word)
  {
    ghost predicate Right() {
      && (forall b :: byteExtension(b) == ByteExtension(b))
      && (forall b :: stride3(b) == Bits(128, Wide(b))) && (forall b :: stride2(b) == Bits(128, Up1(b)))
      && (forall b :: stride1(b) == Bits(128, Up2(b))) && (forall b :: stride0(b) == Bits(128, Up3(b)))
    }
  }

  // The state that four partial results stand for.
  function Combined(c0: Word, c1: Word, c2: Word, c3: Word): Word {
    Xor4(Bits(128, c0), Bits(96, c1), Bits(64, c2), Bits(32, c3))
  }

  lemma Xor4Pairs(a0: Word, a1: Word, a2: Word, a3: Word, b0: Word, b1: Word, b2: Word, b3: Word)
    ensures Xor4(Xor(a0, b0), Xor(a1, b1), Xor(a2, b2), Xor(a3, b3)) == Xor(Xor4(a0, a1, a2, a3), Xor4(b0, b1, b2, b3))
  {
    hide Xor;
    XorSwap(a0, b0, a1, b1);
    XorSwap(a2, b2, a3, b3);
    XorSwap(Xor(a0, a1), Xor(b0, b1), Xor(a2, a3), Xor(b2, b3));
  }

  lemma BitsXor4(n: nat, a: Word, b: Word, c: Word, d: Word)
    ensures Bits(n, Xor4(a, b, c, d)) == Xor4(Bits(n, a), Bits(n, b), Bits(n, c), Bits(n, d))
  {
    hide Bits, Xor;
    BitsLinear(n, Xor(a, b), Xor(c, d));
    BitsLinear(n, a, b);
    BitsLinear(n, c, d);
  }

  lemma CombinedLinear(a0: Word, a1: Word, a2: Word, a3: Word, b0: Word, b1: Word, b2: Word, b3: Word)
    ensures Combined(Xor(a0, b0), Xor(a1, b1), Xor(a2, b2), Xor(a3, b3)) ==
      Xor(Combined(a0, a1, a2, a3), Combined(b0, b1, b2, b3))
  {
    hide Bits, Xor, Xor4;
    BitsLinear(128, a0, b0);
    BitsLinear(96, a1, b1);
    BitsLinear(64, a2, b2);
    BitsLinear(32, a3, b3);
    Xor4Pairs(Bits(128, a0), Bits(96, a1), Bits(64, a2), Bits(32, a3), Bits(128, b0), Bits(96, b1), Bits(64, b2),
      Bits(32, b3));
  }

  // Moving the state on and moving the partial results on is the same.
  lemma CombinedShift(n: nat, c0: Word, c1: Word, c2: Word, c3: Word)
    ensures Combined(Bits(n, c0), Bits(n, c1), Bits(n, c2), Bits(n, c3)) == Bits(n, Combined(c0, c1, c2, c3))
  {
    hide Bits, Xor, Xor4;
    BitsXor4(n, Bits(128, c0), Bits(96, c1), Bits(64, c2), Bits(32, c3));
    ShiftsCommute(128, n, c0);
    ShiftsCommute(96, n, c1);
    ShiftsCommute(64, n, c2);
    ShiftsCommute(32, n, c3);
  }

  lemma ShiftsCommute(m: nat, n: nat, l: Word)
    ensures Bits(m, Bits(n, l)) == Bits(n, Bits(m, l))
  {
    hide Bits;
    BitsAdd(m, n, l);
    BitsAdd(n, m, l);
  }

  function FoldWords(l: Word, w0: Word, w1: Word, w2: Word, w3: Word): Word {
    Bits(32, Xor(Bits(32, Xor(Bits(32, Xor(Bits(32, Xor(l, w0)), w1)), w2)), w3))
  }

  // Sixteen bytes of data after state l.
  lemma FoldWordsIs(l: Word, w0: Word, w1: Word, w2: Word, w3: Word)
    ensures FoldWords(l, w0, w1, w2, w3) == Xor(Bits(128, l), Combined(w0, w1, w2, w3))
  {
    hide Bits, Xor;
    var x0 := Xor(l, w0);
    BitsLinear(32, Bits(32, x0), w1);
    BitsAdd(32, 32, x0);
    var x1 := Xor(Bits(32, x0), w1);
    BitsLinear(32, Bits(32, x1), w2);
    var x2 := Xor(Bits(32, x1), w2);
    BitsLinear(32, Bits(32, x2), w3);
    assert FoldWords(l, w0, w1, w2, w3) == Xor(Bits(32, Bits(32, x2)), Bits(32, w3));
    BitsAdd(32, 32, x2);
    BitsLinear(64, Bits(32, x1), w2);
    BitsAdd(64, 32, x1);
    BitsLinear(96, Bits(32, x0), w1);
    BitsAdd(96, 32, x0);
    BitsLinear(128, l, w0);
    XorAssoc(Bits(128, l), Bits(128, w0), Bits(96, w1));
    XorAssoc(Bits(128, l), Xor(Bits(128, w0), Bits(96, w1)), Bits(64, w2));
    XorAssoc(Bits(128, l), Xor(Xor(Bits(128, w0), Bits(96, w1)), Bits(64, w2)), Bits(32, w3));
    XorAssoc(Xor(Bits(128, w0), Bits(96, w1)), Bits(64, w2), Bits(32, w3));
  }

  // One swath: each partial result moves sixteen bytes on and takes in its word.
  lemma Swath(c0: Word, c1: Word, c2: Word, c3: Word, w0: Word, w1: Word, w2: Word, w3: Word)
    ensures Combined(Xor(w0, Bits(128, c0)), Xor(w1, Bits(128, c1)), Xor(w2, Bits(128, c2)), Xor(w3, Bits(128, c3)))
         == FoldWords(Combined(c0, c1, c2, c3), w0, w1, w2, w3)
  {
    hide Bits, Xor, Combined, FoldWords;
    CombinedLinear(w0, w1, w2, w3, Bits(128, c0), Bits(128, c1), Bits(128, c2), Bits(128, c3));
    CombinedShift(128, c0, c1, c2, c3);
    FoldWordsIs(Combined(c0, c1, c2, c3), w0, w1, w2, w3);
    XorComm(Combined(w0, w1, w2, w3), Bits(128, Combined(c0, c1, c2, c3)));
  }

  // One word more: the first partial result takes it in and becomes the last.
  lemma Rotate(c0: Word, c1: Word, c2: Word, c3: Word, w: Word)
    ensures Combined(c1, c2, c3, Xor(w, Bits(128, c0))) == Bits(32, Xor(Combined(c0, c1, c2, c3), w))
  {
    hide Bits, Xor;
    BitsLinear(32, Combined(c0, c1, c2, c3), w);
    BitsXor4(32, Bits(128, c0), Bits(96, c1), Bits(64, c2), Bits(32, c3));
    BitsAdd(32, 96, c1);
    BitsAdd(32, 64, c2);
    BitsAdd(32, 32, c3);
    BitsLinear(32, w, Bits(128, c0));
    var a, p, q, r, s := Bits(32, Bits(128, c0)), Bits(128, c1), Bits(96, c2), Bits(64, c3), Bits(32, w);
    assert Combined(c1, c2, c3, Xor(w, Bits(128, c0))) == Xor4(p, q, r, Xor(s, a));
    assert Bits(32, Xor(Combined(c0, c1, c2, c3), w)) == Xor(Xor4(a, p, q, r), s);
    MoveLast(a, p, q, r, s);
  }

  lemma MoveLast(a: Word, p: Word, q: Word, r: Word, s: Word)
    ensures Xor4(p, q, r, Xor(s, a)) == Xor(Xor4(a, p, q, r), s)
  {
    hide Xor;
    XorAssoc(r, s, a);
    XorAssoc(Xor(p, q), Xor(r, s), a);
    XorComm(Xor(Xor(p, q), Xor(r, s)), a);
    XorAssoc(Xor(p, q), r, s);
    XorAssoc(a, Xor(Xor(p, q), r), s);
    XorAssoc(p, q, r);
    XorAssoc(a, p, Xor(q, r));
  }

  // ---- Extend ----

  // The word of four bytes at p.
  function ReadWord(data: seq<Byte>, p: nat): Word
    requires p + 4 <= |data|
  {
    Lane(data[p], data[p + 1], data[p + 2], data[p + 3])
  }

  function ByteAt(w: Word, shift: nat): Byte
    requires shift <= 32
  {
    Low(w >> shift)
  }

  // A partial result moved on by sixteen bytes, one table for each of its bytes.
  function Stride(t: Tables, w: Word): Word {
    Xor4(t.stride3(Low(w)), t.stride2(ByteAt(w, 8)), t.stride1(ByteAt(w, 16)), t.stride0(ByteAt(w, 24)))
  }

  lemma StrideIs(t: Tables, w: Word)
    requires t.Right()
    ensures Stride(t, w) == Bits(128, w)
  {
    hide Bits, Xor4, Xor, Wide, Up1, Up2, Up3, Low, ByteAt;
    BytesOf(w);
    BitsXor4(128, Wide(Low(w)), Up1(ByteAt(w, 8)), Up2(ByteAt(w, 16)), Up3(ByteAt(w, 24)));
  }

  lemma BytesOf(w: Word)
    ensures w == Xor4(Wide(Low(w)), Up1(ByteAt(w, 8)), Up2(ByteAt(w, 16)), Up3(ByteAt(w, 24)))
  {
    hide Wide, Low, Up1, Up2, Up3, ByteAt;
    Parts(w);
    SplitWord(w);
  }

  lemma Parts(w: Word)
    ensures Wide(Low(w)) == w & 0xff && Up1(ByteAt(w, 8)) == w & 0xff00
    ensures Up2(ByteAt(w, 16)) == w & 0xff_0000 && Up3(ByteAt(w, 24)) == w & 0xff00_0000
  {
  }

  lemma SplitWord(w: Word)
    ensures w == ((w & 0xff) ^ (w & 0xff00)) ^ ((w & 0xff_0000) ^ (w & 0xff00_0000))
  {
  }

  method Step1(t: Tables, l: Word, b: Byte) returns (r: Word)
    requires t.Right()
    ensures r == Step(l, b)
  {
    hide Bits;
    r := t.byteExtension(Low(l) ^ b) ^ (l >> 8);
  }

  // Four bytes already loaded into a word.
  method Step4W(t: Tables, l: Word, w: Word) returns (r: Word)
    requires t.Right()
    ensures r == Bits(32, Xor(w, l))
  {
    hide Bits, Xor;
    r := Xor(w, l);
    BitsNone(r);
    for i := 0 to 4
      invariant r == Bits(8 * i, Xor(w, l))
    {
      BitsAdd(8, 8 * i, Xor(w, l));
      OneByte(t, r);
      r := Xor(r >> 8, t.byteExtension(Low(r)));
    }
  }

  lemma BitsNone(l: Word)
    ensures Bits(0, l) == l
  {
  }

  lemma OneByte(t: Tables, l: Word)
    requires t.Right()
    ensures Xor(l >> 8, t.byteExtension(Low(l))) == Bits(8, l)
  {
    hide Bits, Xor;
    StepIsBits(l, 0);
    ZeroByte(l);
    XorComm(Above(l), ByteExtension(Low(l)));
  }

  lemma ZeroByte(l: Word)
    ensures Mix(l, 0) == Low(l) && Xor(l, Wide(0)) == l
  {
  }

  // `address` is where the data starts; only its alignment matters.
  method Extend(t: Tables, crc: Word, data: seq<Byte>, address: nat) returns (r: Word)
    requires t.Right()
    ensures r == Extended(crc, data)
  {
    hide Bits, Fold, Step, Xor, Lane, Stride, Combined, Tables.Right;
    var l := Xor(crc, ONES);
    var p, e := 0, |data|;
    var x := (4 - address % 4) % 4;
    FoldNone(l, data);
    if x <= e {
      while p != x
        invariant p <= x && l == Fold(Xor(crc, ONES), data[..p])
        decreases x - p
      {
        FoldOne(Xor(crc, ONES), data, p);
        l := Step1(t, l, data[p]);
        p := p + 1;
      }
    }
    if e - p >= 16 {
      var crc0, crc1, crc2, crc3 :=
        Xor(ReadWord(data, p), l), ReadWord(data, p + 4), ReadWord(data, p + 8), ReadWord(data, p + 12);
      FirstSwath(Xor(crc, ONES), data, p, l);
      p := p + 16;
      while e - p >= 16
        invariant p <= e && Combined(crc0, crc1, crc2, crc3) == Fold(Xor(crc, ONES), data[..p])
      {
        StrideIs(t, crc0); StrideIs(t, crc1); StrideIs(t, crc2); StrideIs(t, crc3);
        NextSwath(Xor(crc, ONES), data, p, crc0, crc1, crc2, crc3);
        crc0 := Xor(ReadWord(data, p), Stride(t, crc0));
        crc1 := Xor(ReadWord(data, p + 4), Stride(t, crc1));
        crc2 := Xor(ReadWord(data, p + 8), Stride(t, crc2));
        crc3 := Xor(ReadWord(data, p + 12), Stride(t, crc3));
        p := p + 16;
      }
      while e - p >= 4
        invariant p <= e && Combined(crc0, crc1, crc2, crc3) == Fold(Xor(crc, ONES), data[..p])
      {
        StrideIs(t, crc0);
        FoldWordAt(Xor(crc, ONES), data, p);
        Rotate(crc0, crc1, crc2, crc3, ReadWord(data, p));
        crc0, crc1, crc2, crc3 := crc1, crc2, crc3, Xor(ReadWord(data, p), Stride(t, crc0));
        p := p + 4;
      }
      FromZero(crc0, crc1, crc2, crc3);
      l := 0;
      l := Step4W(t, l, crc0);
      l := Step4W(t, l, crc1);
      l := Step4W(t, l, crc2);
      l := Step4W(t, l, crc3);
    }
    while p != e
      invariant p <= e && l == Fold(Xor(crc, ONES), data[..p])
      decreases e - p
    {
      FoldOne(Xor(crc, ONES), data, p);
      l := Step1(t, l, data[p]);
      p := p + 1;
    }
    assert data[..e] == data;
    r := Xor(l, ONES);
  }

  lemma FoldNone(l: Word, data: seq<Byte>)
    ensures Fold(l, data[..0]) == l
  {
  }

  lemma FoldOne(l: Word, data: seq<Byte>, p: nat)
    requires p < |data|
    ensures Fold(l, data[..p + 1]) == Step(Fold(l, data[..p]), data[p])
  {
    hide Step;
    assert data[..p + 1] == data[..p] + [data[p]];
    FoldAppend(l, data[..p], [data[p]]);
  }

  lemma FoldWordAt(l: Word, data: seq<Byte>, p: nat)
    requires p + 4 <= |data|
    ensures Fold(l, data[..p + 4]) == Bits(32, Xor(Fold(l, data[..p]), ReadWord(data, p)))
  {
    hide Bits, Xor, Fold, Lane;
    var w := [data[p], data[p + 1], data[p + 2], data[p + 3]];
    assert data[..p + 4] == data[..p] + w;
    FoldAppend(l, data[..p], w);
    FoldWord(Fold(l, data[..p]), data[p], data[p + 1], data[p + 2], data[p + 3]);
  }

  // Four words are a swath.
  lemma FoldSwath(l: Word, data: seq<Byte>, p: nat)
    requires p + 16 <= |data|
    ensures Fold(l, data[..p + 16])
         == FoldWords(Fold(l, data[..p]), ReadWord(data, p), ReadWord(data, p + 4), ReadWord(data, p + 8),
           ReadWord(data, p + 12))
  {
    hide Bits, Xor, Fold, Lane;
    FoldWordAt(l, data, p);
    FoldWordAt(l, data, p + 4);
    FoldWordAt(l, data, p + 8);
    FoldWordAt(l, data, p + 12);
  }

  lemma NextSwath(l: Word, data: seq<Byte>, p: nat, c0: Word, c1: Word, c2: Word, c3: Word)
    requires p + 16 <= |data| && Combined(c0, c1, c2, c3) == Fold(l, data[..p])
    ensures Combined(Xor(ReadWord(data, p), Bits(128, c0)), Xor(ReadWord(data, p + 4), Bits(128, c1)),
                     Xor(ReadWord(data, p + 8), Bits(128, c2)), Xor(ReadWord(data, p + 12), Bits(128, c3))) ==
                       Fold(l, data[..p + 16])
  {
    hide Bits, Xor, Fold, Lane, Combined;
    FoldSwath(l, data, p);
    Swath(c0, c1, c2, c3, ReadWord(data, p), ReadWord(data, p + 4), ReadWord(data, p + 8), ReadWord(data, p + 12));
  }

  lemma FirstSwath(l0: Word, data: seq<Byte>, p: nat, l: Word)
    requires p + 16 <= |data| && l == Fold(l0, data[..p])
    ensures Combined(Xor(ReadWord(data, p), l), ReadWord(data, p + 4), ReadWord(data, p + 8), ReadWord(data, p + 12))
         == Fold(l0, data[..p + 16])
  {
    hide Bits, Fold, Lane, Xor, ReadWord;
    var w0, w1, w2, w3 := ReadWord(data, p), ReadWord(data, p + 4), ReadWord(data, p + 8), ReadWord(data, p + 12);
    FoldSwath(l0, data, p);
    FoldWordsIs(l, w0, w1, w2, w3);
    BitsLinear(128, w0, l);
    var a, b, c, d := Bits(128, w0), Bits(96, w1), Bits(64, w2), Bits(32, w3);
    XorComm(a, Bits(128, l));
    XorAssoc(Bits(128, l), a, b);
    XorAssoc(Bits(128, l), Xor(a, b), Xor(c, d));
  }

  lemma FromZero(c0: Word, c1: Word, c2: Word, c3: Word)
    ensures Bits(32, Xor(c3, Bits(32, Xor(c2, Bits(32, Xor(c1, Bits(32, Xor(c0, 0)))))))) == Combined(c0, c1, c2, c3)
  {
    hide Bits, Xor, Combined;
    FoldWordsIs(0, c0, c1, c2, c3);
    BitsOfZero(128);
    XorComm(0, Combined(c0, c1, c2, c3));
    XorZero(Combined(c0, c1, c2, c3));
    XorComm(0, c0);
    XorComm(c1, Bits(32, Xor(c0, 0)));
    XorComm(c2, Bits(32, Xor(c1, Bits(32, Xor(c0, 0)))));
    XorComm(c3, Bits(32, Xor(c2, Bits(32, Xor(c1, Bits(32, Xor(c0, 0)))))));
  }

  lemma {:induction false} BitsOfZero(n: nat)
    ensures Bits(n, 0) == 0
  {
    if n == 0 {
    } else {
      assert Bit(0) == 0;
      BitsOfZero(n - 1);
    }
  }

  lemma XorZero(a: Word)
    ensures Xor(a, 0) == a
  {
  }

  // ---- Masking ----

  function Mask(crc: Word): Word { ((crc >> 15) | (crc << 17)) + MASK_DELTA }

  function Unmask(masked: Word): Word {
    var rot := masked - MASK_DELTA;
    (rot >> 17) | (rot << 15)
  }

  lemma MaskRoundTrip(crc: Word)
    ensures Unmask(Mask(crc)) == crc && Mask(Unmask(crc)) == crc
  {
  }
}
