/** The 16-bit cyclic redundancy check `calc_crc16ccitt` of libraries/math/mathlib.cpp: the FCS of
    section C.2 of RFC 1662 without the final complement. */
module Crc {
  const INITIAL: bv16 := 0xffff

  const POLYNOMIAL: bv16 := 0x8408

  function LowBit(c: bv16): bool { c & 1 == 1 }

  /** One shift of the register, with or without feedback. */
  function Shifted(c: bv16, feedback: bool): bv16 {
    (c >> 1) ^ (if feedback then POLYNOMIAL else 0)
  }

  /** The register after one bit of the message. */
  function BitStep(c: bv16, bit: bool): bv16 {
    Shifted(c, LowBit(c) != bit)
  }

  function Feed(c: bv16, bits: seq<bool>): bv16
    decreases |bits|
  {
    if bits == [] then c else Feed(BitStep(c, bits[0]), bits[1..])
  }

  /** The bits of a byte, the lowest first. */
  function BitsOf(b: bv8): (bits: seq<bool>)
    ensures |bits| == 8
  {
    [b & 1 == 1, (b >> 1) & 1 == 1, (b >> 2) & 1 == 1, (b >> 3) & 1 == 1,
     (b >> 4) & 1 == 1, (b >> 5) & 1 == 1, (b >> 6) & 1 == 1, (b >> 7) & 1 == 1]
  }

  function MessageBits(message: seq<bv8>): (bits: seq<bool>)
    ensures |bits| == 8 * |message|
  {
    if message == [] then [] else MessageBits(message[..|message| - 1]) + BitsOf(message[|message| - 1])
  }

  function Check(message: seq<bv8>): bv16 {
    Feed(INITIAL, MessageBits(message))
  }

  lemma {:induction false} FeedAppend(c: bv16, u: seq<bool>, v: seq<bool>)
    ensures Feed(c, u + v) == Feed(Feed(c, u), v)
    decreases |u|
  {
    hide BitStep;
    if u == [] {
      assert u + v == v;
    } else {
      assert (u + v)[1..] == u[1..] + v;
      FeedAppend(BitStep(c, u[0]), u[1..], v);
    }
  }

  /** The loop over the bits of a byte, which shifts the byte. */
  method FeedByte(crc: bv16, b: bv8) returns (c: bv16)
    ensures c == Feed(crc, BitsOf(b))
  {
    c := crc;
    var ch := b;
    var bits := BitsOf(b);
    hide BitStep, Feed;
    FeedNothing(crc);
    for j := 0 to 8
      invariant c == Feed(crc, bits[..j]) && (j < 8 ==> TopBits(b, ch, j))
    {
      NextBit(b, ch, j);
      FeedAppend(crc, bits[..j], [bits[j]]);
      FeedOne(c, bits[j]);
      assert bits[..j + 1] == bits[..j] + [bits[j]];
      c := BitStep(c, ch & 1 == 1);
      ch := ch >> 1;
    }
    assert bits[..8] == bits;
  }

  /** ch is b shifted j times. */
  predicate TopBits(b: bv8, ch: bv8, j: nat)
    requires j < 8
  {
    match j
    case 0 => ch == b
    case 1 => ch == b >> 1
    case 2 => ch == b >> 2
    case 3 => ch == b >> 3
    case 4 => ch == b >> 4
    case 5 => ch == b >> 5
    case 6 => ch == b >> 6
    case _ => ch == b >> 7
  }

  lemma NextBit(b: bv8, ch: bv8, j: nat)
    requires j < 8 && TopBits(b, ch, j)
    ensures (ch & 1 == 1) == BitsOf(b)[j] && (j < 7 ==> TopBits(b, ch >> 1, j + 1))
  {
  }

  lemma FeedNothing(c: bv16)
    ensures Feed(c, []) == c
  {
  }

  lemma FeedOne(c: bv16, bit: bool)
    ensures Feed(c, [bit]) == BitStep(c, bit)
  {
    assert [bit][1..] == [];
  }

  /** `calc_crc16ccitt`; its 16-bit loop counter limits the size. */
  method CalcCrc16Ccitt(buf: seq<bv8>) returns (crc: bv16)
    requires |buf| <= 65535
    ensures crc == Check(buf)
  {
    crc := INITIAL;
    for i := 0 to |buf|
      invariant crc == Check(buf[..i])
    {
      assert buf[..i + 1][..i] == buf[..i];
      FeedAppend(INITIAL, MessageBits(buf[..i]), BitsOf(buf[i]));
      crc := FeedByte(crc, buf[i]);
    }
    assert buf[..|buf|] == buf;
  }

  // ----- Bursts -----

  lemma StepInjective(c: bv16, d: bv16, bit: bool)
    requires BitStep(c, bit) == BitStep(d, bit)
    ensures c == d
  {
  }

  lemma {:induction false} FeedInjective(c: bv16, d: bv16, bits: seq<bool>)
    requires Feed(c, bits) == Feed(d, bits)
    ensures c == d
    decreases |bits|
  {
    hide BitStep;
    if bits != [] {
      FeedInjective(BitStep(c, bits[0]), BitStep(d, bits[0]), bits[1..]);
      StepInjective(c, d, bits[0]);
    }
  }

  function Masked(c: bv16, mask: bv16): bv16 { c & mask }

  function Doubled(mask: bv16): bv16 { mask << 1 }

  predicate HasTop(mask: bv16) { mask & 0x8000 == 0x8000 }

  /** The upper bits of a register, all but the k lowest. */
  function Upper(k: nat): bv16
    requires k <= 16
  {
    if k == 0 then 0xffff else Doubled(Upper(k - 1))
  }

  lemma UpperBits(k: nat)
    requires k < 16
    ensures HasTop(Upper(k))
  {
    assert Upper(2) == 0xfffc;
    assert Upper(4) == 0xfff0;
    assert Upper(6) == 0xffc0;
    assert Upper(8) == 0xff00;
    assert Upper(10) == 0xfc00;
    assert Upper(12) == 0xf000;
    assert Upper(14) == 0xc000;
  }

  /** Registers that agree in their upper bits after a step had the same feedback, and agreed in
      one upper bit less before. */
  lemma StepBack(c: bv16, d: bv16, f: bool, g: bool, mask: bv16)
    requires HasTop(mask) && Masked(Shifted(c, f), mask) == Masked(Shifted(d, g), mask)
    ensures f == g && Masked(c, Doubled(mask)) == Masked(d, Doubled(mask))
  {
  }

  predicate AgreeAbove(c: bv16, d: bv16, k: nat)
    requires k <= 16
  {
    Masked(c, Upper(k)) == Masked(d, Upper(k))
  }

  lemma AgreeBack(c: bv16, d: bv16, b: bool, e: bool, k: nat)
    requires 0 < k <= 16 && AgreeAbove(BitStep(c, b), BitStep(d, e), k - 1)
    ensures AgreeAbove(c, d, k) && (LowBit(c) != b) == (LowBit(d) != e)
  {
    UpperBits(k - 1);
    hide Masked, Doubled, HasTop, Shifted, LowBit;
    StepBack(c, d, LowBit(c) != b, LowBit(d) != e, Upper(k - 1));
  }

  /** When two runs of at most sixteen bits end alike, they had the same feedback at every bit. */
  lemma {:induction false} Feedbacks(c: bv16, d: bv16, u: seq<bool>, v: seq<bool>)
    requires |u| == |v| <= 16 && Feed(c, u) == Feed(d, v)
    ensures AgreeAbove(c, d, |u|)
    ensures |u| > 0 ==> (LowBit(c) != u[0]) == (LowBit(d) != v[0])
    decreases |u|
  {
    hide BitStep, LowBit, AgreeAbove;
    if u == [] {
      AgreeSelf(c);
    } else {
      Feedbacks(BitStep(c, u[0]), BitStep(d, v[0]), u[1..], v[1..]);
      AgreeBack(c, d, u[0], v[0], |u|);
    }
  }

  lemma AgreeSelf(c: bv16)
    ensures AgreeAbove(c, c, 0)
  {
  }

  /** From the same register, different bits of at most sixteen lead to different registers. */
  lemma {:induction false} BurstChanges(c: bv16, u: seq<bool>, v: seq<bool>)
    requires |u| == |v| <= 16 && Feed(c, u) == Feed(c, v)
    ensures u == v
    decreases |u|
  {
    if u != [] {
      Feedbacks(c, c, u, v);
      hide BitStep, LowBit;
      BurstChanges(BitStep(c, u[0]), u[1..], v[1..]);
      assert u == [u[0]] + u[1..] && v == [v[0]] + v[1..];
    }
  }

  /** Messages of the same length that differ, and only within sixteen consecutive bits, have
      different checks. */
  lemma BurstIsDetected(m: seq<bv8>, n: seq<bv8>, before: seq<bool>, u: seq<bool>, v: seq<bool>, after: seq<bool>)
    requires MessageBits(m) == before + u + after && MessageBits(n) == before + v + after
    requires |u| == |v| <= 16 && u != v
    ensures Check(m) != Check(n)
  {
    hide MessageBits;
    FeedAppend(INITIAL, before + u, after);
    FeedAppend(INITIAL, before, u);
    FeedAppend(INITIAL, before + v, after);
    FeedAppend(INITIAL, before, v);
    if Check(m) == Check(n) {
      FeedInjective(Feed(INITIAL, before + u), Feed(INITIAL, before + v), after);
      BurstChanges(Feed(INITIAL, before), u, v);
    }
  }

  /** Messages of the same length that differ in two adjacent bytes, and nowhere else, have
      different checks. */
  lemma TwoBytesAreDetected(before: seq<bv8>, a: bv8, b: bv8, c: bv8, d: bv8, after: seq<bv8>)
    requires a != c || b != d
    ensures Check(before + [a, b] + after) != Check(before + [c, d] + after)
  {
    PairBits(before, a, b, after);
    PairBits(before, c, d, after);
    BitsDiffer(a, c);
    BitsDiffer(b, d);
    var u, v := BitsOf(a) + BitsOf(b), BitsOf(c) + BitsOf(d);
    hide BitsOf;
    assert u[..8] == BitsOf(a) && u[8..] == BitsOf(b) && v[..8] == BitsOf(c) && v[8..] == BitsOf(d);
    BurstIsDetected(before + [a, b] + after, before + [c, d] + after, MessageBits(before), u, v, MessageBits(after));
  }

  lemma BitsDiffer(a: bv8, c: bv8)
    ensures BitsOf(a) == BitsOf(c) ==> a == c
  {
    if BitsOf(a) == BitsOf(c) {
      assert forall k | 0 <= k < 8 :: BitsOf(a)[k] == BitsOf(c)[k];
      assert BitsOf(a)[0] == BitsOf(c)[0] && BitsOf(a)[1] == BitsOf(c)[1] && BitsOf(a)[2] == BitsOf(c)[2]
               && BitsOf(a)[3] == BitsOf(c)[3];
      assert BitsOf(a)[4] == BitsOf(c)[4] && BitsOf(a)[5] == BitsOf(c)[5] && BitsOf(a)[6] == BitsOf(c)[6]
               && BitsOf(a)[7] == BitsOf(c)[7];
    }
  }

  lemma {:induction false} MessageBitsAppend(m: seq<bv8>, n: seq<bv8>)
    ensures MessageBits(m + n) == MessageBits(m) + MessageBits(n)
    decreases |n|
  {
    hide BitsOf;
    if n == [] {
      assert m + n == m;
    } else {
      assert (m + n)[..|m + n| - 1] == m + n[..|n| - 1];
      MessageBitsAppend(m, n[..|n| - 1]);
    }
  }

  lemma PairBits(before: seq<bv8>, a: bv8, b: bv8, after: seq<bv8>)
    ensures MessageBits(before + [a, b] + after) == MessageBits(before) + (BitsOf(a) + BitsOf(b)) + MessageBits(after)
  {
    hide BitsOf;
    MessageBitsAppend(before + [a, b], after);
    MessageBitsAppend(before, [a, b]);
    assert [a, b][..1] == [a] && [a][..0] == [];
    assert MessageBits([a]) == MessageBits([]) + BitsOf(a);
  }

  // ----- A byte at a time -----

  /** One shift without a message bit. */
  function Zero(c: bv16): bv16 { Shifted(c, LowBit(c)) }

  function Eight(c: bv16): bv16 { Zero(Zero(Zero(Zero(Zero(Zero(Zero(Zero(c)))))))) }

  /** Addition of registers, bit by bit. */
  function Plus(x: bv16, y: bv16): bv16 { x ^ y }

  function Half(x: bv16): bv16 { x >> 1 }

  function Poly(f: bool): bv16 { if f then POLYNOMIAL else 0 }

  lemma HalfIsLinear(x: bv16, y: bv16)
    ensures Half(Plus(x, y)) == Plus(Half(x), Half(y))
  {
  }

  lemma LowBitIsLinear(x: bv16, y: bv16)
    ensures LowBit(Plus(x, y)) == (LowBit(x) != LowBit(y))
  {
  }

  lemma ZeroIs(x: bv16)
    ensures Zero(x) == Plus(Half(x), Poly(LowBit(x)))
  {
    hide Shifted, LowBit, Plus, Half, Poly;
    ShiftedIs(x, LowBit(x));
  }

  lemma BitStepIs(x: bv16, bit: bool)
    ensures BitStep(x, bit) == Plus(Half(x), Poly(LowBit(x) != bit))
  {
    hide Shifted, LowBit, Plus, Half, Poly;
    ShiftedIs(x, LowBit(x) != bit);
  }

  lemma ShiftedIs(x: bv16, feedback: bool)
    ensures Shifted(x, feedback) == Plus(Half(x), Poly(feedback))
  {
    if feedback {
    } else {
    }
  }

  lemma LastSwapped(x: bv16, y: bv16, z: bv16)
    ensures Plus(Plus(x, y), z) == Plus(Plus(x, z), y)
  {
  }

  lemma PairsSwapped(x: bv16, y: bv16, z: bv16, w: bv16)
    ensures Plus(Plus(x, y), Plus(z, w)) == Plus(Plus(x, z), Plus(y, w))
  {
    hide *;
    Regrouped(Plus(x, y), z, w);
    LastSwapped(x, y, z);
    Regrouped(Plus(x, z), y, w);
  }

  lemma Regrouped(x: bv16, y: bv16, z: bv16)
    ensures Plus(x, Plus(y, z)) == Plus(Plus(x, y), z)
  {
  }

  lemma PolyIsLinear(f: bool, g: bool)
    ensures Poly(f != g) == Plus(Poly(f), Poly(g))
  {
  }

  /** Feeding the lowest bit of w is shifting the register with all of w added. */
  lemma BitIsAdded(c: bv16, w: bv16)
    ensures Zero(Plus(c, w)) == Plus(BitStep(c, LowBit(w)), Half(w))
  {
    hide *;
    ZeroIs(Plus(c, w));
    HalfIsLinear(c, w);
    LowBitIsLinear(c, w);
    BitStepIs(c, LowBit(w));
    LastSwapped(Half(c), Half(w), Poly(LowBit(c) != LowBit(w)));
  }

  function Wide(b: bv8): bv16 { b as bv16 }

  lemma ByteIsAdded(c: bv16, b: bv8)
    ensures Feed(c, BitsOf(b)) == Eight(Plus(c, Wide(b)))
  {
    var w0, bits := Wide(b), BitsOf(b);
    WideBits(b);
    EightBits(c, bits);
    NothingAdded(Feed(c, bits));
    hide Plus, Half, LowBit, BitStep, Zero, Wide, BitsOf, Feed;
    var w1 := Half(w0);
    var w2 := Half(w1);
    var w3 := Half(w2);
    var w4 := Half(w3);
    var w5 := Half(w4);
    var w6 := Half(w5);
    var w7 := Half(w6);
    var c1 := BitStep(c, bits[0]);
    var c2 := BitStep(c1, bits[1]);
    var c3 := BitStep(c2, bits[2]);
    var c4 := BitStep(c3, bits[3]);
    var c5 := BitStep(c4, bits[4]);
    var c6 := BitStep(c5, bits[5]);
    var c7 := BitStep(c6, bits[6]);
    BitIsAdded(c, w0);
    BitIsAdded(c1, w1);
    BitIsAdded(c2, w2);
    BitIsAdded(c3, w3);
    BitIsAdded(c4, w4);
    BitIsAdded(c5, w5);
    BitIsAdded(c6, w6);
    BitIsAdded(c7, w7);
  }

  lemma NothingAdded(x: bv16)
    ensures Plus(x, 0) == x
  {
  }

  lemma WideBits(b: bv8)
    ensures var w, bits := Wide(b), BitsOf(b);
      && LowBit(w) == bits[0] && LowBit(Half(w)) == bits[1] && LowBit(Half(Half(w))) == bits[2]
           && LowBit(Half(Half(Half(w)))) == bits[3]
      && LowBit(Half(Half(Half(Half(w))))) == bits[4] && LowBit(Half(Half(Half(Half(Half(w)))))) == bits[5]
      && LowBit(Half(Half(Half(Half(Half(Half(w))))))) == bits[6]
           && LowBit(Half(Half(Half(Half(Half(Half(Half(w)))))))) == bits[7]
      && Half(Half(Half(Half(Half(Half(Half(Half(w)))))))) == 0
  {
  }

  lemma EightBits(c: bv16, bits: seq<bool>)
    requires |bits| == 8
    ensures Feed(c, bits)
         == BitStep(BitStep(BitStep(BitStep(BitStep(BitStep(BitStep(BitStep(c, bits[0]), bits[1]), bits[2]), bits[3]),
                    bits[4]), bits[5]), bits[6]), bits[7])
  {
    hide BitStep;
    var c4 := BitStep(BitStep(BitStep(BitStep(c, bits[0]), bits[1]), bits[2]), bits[3]);
    FourBits(c, bits[..4]);
    FourBits(c4, bits[4..]);
    FeedAppend(c, bits[..4], bits[4..]);
    assert bits[..4] + bits[4..] == bits;
  }

  lemma FourBits(c: bv16, bits: seq<bool>)
    requires |bits| == 4
    ensures Feed(c, bits) == BitStep(BitStep(BitStep(BitStep(c, bits[0]), bits[1]), bits[2]), bits[3])
  {
    hide BitStep;
    var c1 := BitStep(c, bits[0]);
    var c2 := BitStep(c1, bits[1]);
    var c3 := BitStep(c2, bits[2]);
    assert bits[1..][1..] == bits[2..] && bits[2..][1..] == bits[3..] && bits[3..][1..] == [];
    assert Feed(c, bits) == Feed(c1, bits[1..]);
    assert Feed(c1, bits[1..]) == Feed(c2, bits[2..]);
    assert Feed(c2, bits[2..]) == Feed(c3, bits[3..]);
    assert Feed(c3, bits[3..]) == Feed(BitStep(c3, bits[3]), []);
  }

  function Low(x: bv16): bv16 { x & 0xff }

  function High(x: bv16): bv16 { x & 0xff00 }

  function HighByte(x: bv16): bv16 { x >> 8 }

  /** The upper byte moves down, and the lower byte is looked up in a table of 256 registers. */
  function TableStep(c: bv16, b: bv8): bv16 {
    Plus(HighByte(c), Eight(Low(Plus(c, Wide(b)))))
  }

  function TableFold(message: seq<bv8>): bv16 {
    if message == [] then INITIAL else TableStep(TableFold(message[..|message| - 1]), message[|message| - 1])
  }

  lemma ZeroIsLinear(x: bv16, y: bv16)
    ensures Zero(Plus(x, y)) == Plus(Zero(x), Zero(y))
  {
    hide *;
    ZeroIs(x);
    ZeroIs(y);
    ZeroIs(Plus(x, y));
    HalfIsLinear(x, y);
    LowBitIsLinear(x, y);
    PolyIsLinear(LowBit(x), LowBit(y));
    PairsSwapped(Half(x), Half(y), Poly(LowBit(x)), Poly(LowBit(y)));
  }

  lemma EightIsLinear(x: bv16, y: bv16)
    ensures Eight(Plus(x, y)) == Plus(Eight(x), Eight(y))
  {
    hide Zero, Plus;
    var x1, y1 := Zero(x), Zero(y);
    var x2, y2 := Zero(x1), Zero(y1);
    var x3, y3 := Zero(x2), Zero(y2);
    var x4, y4 := Zero(x3), Zero(y3);
    var x5, y5 := Zero(x4), Zero(y4);
    var x6, y6 := Zero(x5), Zero(y5);
    var x7, y7 := Zero(x6), Zero(y6);
    ZeroIsLinear(x, y);
    ZeroIsLinear(x1, y1);
    ZeroIsLinear(x2, y2);
    ZeroIsLinear(x3, y3);
    ZeroIsLinear(x4, y4);
    ZeroIsLinear(x5, y5);
    ZeroIsLinear(x6, y6);
    ZeroIsLinear(x7, y7);
  }

  /** Without a low byte there is no feedback for eight shifts. */
  lemma EightOfHigh(x: bv16)
    ensures Eight(High(x)) == HighByte(x)
  {
  }

  lemma TableStepIsFeed(c: bv16, b: bv8)
    ensures TableStep(c, b) == Feed(c, BitsOf(b))
  {
    var x := Plus(c, Wide(b));
    hide Eight, Feed, BitsOf, Plus, HighByte, High, Low, Wide;
    ByteIsAdded(c, b);
    Parts(c, b);
    EightIsLinear(High(x), Low(x));
    EightOfHigh(x);
  }

  lemma Parts(c: bv16, b: bv8)
    ensures Plus(High(Plus(c, Wide(b))), Low(Plus(c, Wide(b)))) == Plus(c, Wide(b))
    ensures HighByte(Plus(c, Wide(b))) == HighByte(c)
  {
  }

  /** The loop over bits computes what a loop over bytes with a table does. */
  lemma {:induction false} TableFoldIsCheck(message: seq<bv8>)
    ensures TableFold(message) == Check(message)
    decreases |message|
  {
    hide TableStep, BitsOf;
    if message == [] {
      FeedNothing(INITIAL);
    } else {
      var n := |message| - 1;
      TableFoldIsCheck(message[..n]);
      TableStepIsFeed(Check(message[..n]), message[n]);
      FeedAppend(INITIAL, MessageBits(message[..n]), BitsOf(message[n]));
    }
  }

  // ----- The residue -----

  /** Only the message's own check, low byte first, makes the check of the longer message zero. */
  lemma ResidueIsZero(message: seq<bv8>, low: bv8, high: bv8)
    ensures Check(message + [low, high]) == 0 <==> Check(message) == Word(low, high)
  {
    var c := Check(message);
    assert (message + [low, high])[..|message| + 1] == message + [low] && (message + [low])[..|message|] == message;
    assert TableFold(message + [low, high]) == TableStep(TableFold(message + [low]), high);
    assert TableFold(message + [low]) == TableStep(TableFold(message), low);
    TableFoldIsCheck(message);
    TableFoldIsCheck(message + [low, high]);
    hide TableStep, Check, TableFold;
    TwoSteps(c, low, high);
  }

  function Word(low: bv8, high: bv8): bv16 { Wide(low) | (Wide(high) << 8) }

  lemma TwoSteps(c: bv16, low: bv8, high: bv8)
    ensures TableStep(TableStep(c, low), high) == 0 <==> c == Word(low, high)
  {
    OneStepZero(TableStep(c, low), high);
    hide TableStep;
    StepToByte(c, low, high);
  }

  /** Eight shifts of a byte reach the upper byte, unless the byte is zero. */
  lemma EightReachesHigh(x: bv16)
    requires High(x) == 0
    ensures High(Eight(x)) == 0 <==> x == 0
    ensures x == 0 ==> Eight(x) == 0
  {
  }

  lemma LowHasNoHigh(x: bv16)
    ensures High(Low(x)) == 0
  {
  }

  lemma BytesMatch(c: bv16, high: bv8, e: bv16)
    requires Plus(HighByte(c), e) == Wide(high)
    ensures High(e) == 0
  {
  }

  lemma BytesMake(c: bv16, low: bv8, high: bv8)
    ensures Low(Plus(c, Wide(low))) == 0 && HighByte(c) == Wide(high) <==> c == Word(low, high)
  {
    hide *;
    LowMatches(c, low);
    BytesOfWord(low, high);
    if Low(c) == Wide(low) && HighByte(c) == Wide(high) {
      SameBytes(c, Word(low, high));
    }
  }

  lemma LowMatches(c: bv16, low: bv8)
    ensures Low(Plus(c, Wide(low))) == 0 <==> Low(c) == Wide(low)
  {
  }

  lemma BytesOfWord(low: bv8, high: bv8)
    ensures Low(Word(low, high)) == Wide(low) && HighByte(Word(low, high)) == Wide(high)
  {
  }

  lemma SameBytes(c: bv16, d: bv16)
    requires Low(c) == Low(d) && HighByte(c) == HighByte(d)
    ensures c == d
  {
  }

  lemma StepToByte(c: bv16, low: bv8, high: bv8)
    ensures TableStep(c, low) == Wide(high) <==> c == Word(low, high)
  {
    var x := Low(Plus(c, Wide(low)));
    hide Eight, Plus, HighByte, High, Low, Wide, Word;
    LowHasNoHigh(Plus(c, Wide(low)));
    EightReachesHigh(x);
    NothingAdded(HighByte(c));
    BytesMake(c, low, high);
    if Plus(HighByte(c), Eight(x)) == Wide(high) {
      BytesMatch(c, high, Eight(x));
    }
  }

  lemma OneStepZero(c: bv16, b: bv8)
    ensures TableStep(c, b) == 0 <==> c == Wide(b)
  {
    StepToByte(c, b, 0);
    WordOfByte(b);
    hide TableStep, Word, Wide;
  }

  lemma WordOfByte(b: bv8)
    ensures Word(b, 0) == Wide(b) && Wide(0) == 0
  {
  }
}
