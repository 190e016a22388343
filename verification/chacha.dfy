/** The ChaCha20-style cipher of `Chiffrement/chacha_lib.py`, as written.

    It differs from the ChaCha20 of RFC 8439 in ways that are modelled here
    and not corrected: the quarter round adds without reducing modulo 2^32;
    the block function works on the context's own state list (so its final
    addition doubles each word instead of adding the original state); key and
    nonce words are read as big-endian hexadecimal; the counter is never
    advanced; and a keystream byte is a state word modulo 256.
 */
module ChaCha {
  import opened Wrappers
  import opened Hex

  /** A Python integer of the cipher. Every value the cipher can reach stays
      below 2^35, so a 64-bit vector holds it exactly: sums never wrap, and
      the bits a 64-bit left shift loses lie above bit 31, where the 32-bit
      mask discards them anyway. */
  type Word = bv64

  const Mask32: Word := 0xffff_ffff

  /** The word is a genuine 32-bit value. */
  predicate Fits32(x: Word) {
    x <= Mask32
  }

  /** The word is below 2^33: the bound the quarter round needs of its inputs. */
  predicate Fits33(x: Word) {
    x < 0x2_0000_0000
  }

  predicate IsEven(x: Word) {
    x % 2 == 0
  }

  // ---------------------------------------------------------------- ROTL

  /** ROTL(x, n) as written: the two shifted copies are ORed and then masked
      to 32 bits. The shift amount is carried as a word, as Python carries
      it as an int. */
  function Rotl(x: Word, n: Word): (r: Word)
    requires n <= 31
    ensures Fits32(r)
  {
    ((x << n) | (x >> (32 - n))) & Mask32
  }

  /** On a 32-bit input, ROTL is the 32-bit left rotation by `n`. */
  lemma RotlRotates(x: Word, n: Word)
    requires n <= 31 && Fits32(x)
    ensures Rotl(x, n) == (((x as bv32) << (n as bv32)) | ((x as bv32) >> (32 - n as bv32))) as Word
  {
  }

  /** On a word of up to 35 bits, ROTL is the rotation of the low 32 bits
      (a true rotation, by RotlRotates) with the bits above them ORed in
      from position `n` on. */
  lemma RotlHighBits(x: Word, n: Word)
    requires n <= 29 && x < 0x8_0000_0000
    ensures Rotl(x, n) == Rotl(x & Mask32, n) | (((x >> 32) << n) & Mask32)
  {
  }

  /** A bit above position 31 is not discarded by ROTL: it reappears in the
      low word, where the 32-bit rotation of the masked input has nothing. */
  lemma RotlFoldsHighBits()
    ensures Rotl(0x1_0000_0000, 7) == 0x80
    ensures ((0x1_0000_0000 & Mask32) as bv32).RotateLeft(7) == 0
  {
  }

  // ------------------------------------------------------- quarter round

  datatype Quad = Quad(a: Word, b: Word, c: Word, d: Word)

  /** quarter_round(a, b, c, d). The sums are not reduced; only ROTL and the
      final masks bring values back to 32 bits. The assertions record that no
      intermediate comes near 2^64, so 64-bit words compute the Python
      integers exactly. */
  function QuarterRound(a: Word, b: Word, c: Word, d: Word): (r: Quad)
    requires Fits33(a) && Fits33(b) && Fits33(c) && Fits33(d)
    ensures Fits32(r.a) && Fits32(r.b) && Fits32(r.c) && Fits32(r.d)
  {
    var a1 := a + b;
    assert a1 < 0x4_0000_0000;
    var d1 := Rotl(d ^ a1, 16);
    var c1 := c + d1;
    assert c1 < 0x4_0000_0000;
    var b1 := Rotl(b ^ c1, 12);
    var a2 := a1 + b1;
    assert a2 < 0x8_0000_0000;
    var d2 := Rotl(d1 ^ a2, 8);
    var c2 := c1 + d2;
    assert c2 < 0x8_0000_0000;
    var b2 := Rotl(b1 ^ c2, 7);
    Quad(a2 & Mask32, b2 & Mask32, c2 & Mask32, d2 & Mask32)
  }

  /** The quarter-round vector of RFC 8439, section 2.1.1, which the module's
      own test_quarter_round checks. */
  lemma QuarterRoundVector()
    ensures QuarterRound(0x11111111, 0x01020304, 0x9b8d6f43, 0x01234567)
         == Quad(0xea2a92f4, 0xcb1cf8ce, 0x4581472e, 0x5881c4bb)
  {
  }

  /** A carry out of bit 31 is not discarded before ROTL, so on inputs whose
      sum overflows 32 bits the quarter round as written departs from the
      quarter round of RFC 8439, section 2.1. */
  lemma QuarterRoundKeepsCarries()
    ensures QuarterRound(0xffff_ffff, 1, 0, 0) == Quad(0x10001000, 0x88888808, 0x1110110, 0x1100110)
    ensures StandardQuarterRound(0xffff_ffff, 1, 0, 0) == Quad(0x1000, 0x8080000, 0x100000, 0x100000)
  {
  }

  /** On the RFC 8439 vector no sum carries and the two agree. */
  lemma QuarterRoundVectorIsStandard()
    ensures StandardQuarterRound(0x11111111, 0x01020304, 0x9b8d6f43, 0x01234567)
         == QuarterRound(0x11111111, 0x01020304, 0x9b8d6f43, 0x01234567)
  {
    QuarterRoundVector();
  }

  /** test_state_quarter_round: the quarter round applied to words 2, 7, 8
      and 13 of the state of RFC 8439, section 2.2.1, stored back in place,
      gives that section's result; the other twelve words keep their values. */
  lemma StateQuarterRoundVector()
    ensures var m := Matrix(
              0x879531e0, 0xc5ecf37d, 0x516461b1, 0xc9a62f8a,
              0x44c20ef3, 0x3390af7f, 0xd9fc690b, 0x2a5f714c,
              0x53372767, 0xb00a5631, 0x974c541a, 0x359e9963,
              0x5c971061, 0x3d631689, 0x2098d9d6, 0x91dbd320);
            var q := QuarterRound(m.x2, m.x7, m.x8, m.x13);
            m.(x2 := q.a, x7 := q.b, x8 := q.c, x13 := q.d) == Matrix(
              0x879531e0, 0xc5ecf37d, 0xbdb886dc, 0xc9a62f8a,
              0x44c20ef3, 0x3390af7f, 0xd9fc690b, 0xcfacafd2,
              0xe46bea80, 0xb00a5631, 0x974c541a, 0x359e9963,
              0x5c971061, 0xccc07c79, 0x2098d9d6, 0x91dbd320)
  {
  }

  /** The quarter round of RFC 8439, section 2.1, on 32-bit words. */
  function StandardQuarterRound(a: Word, b: Word, c: Word, d: Word): (r: Quad)
    requires Fits32(a) && Fits32(b) && Fits32(c) && Fits32(d)
  {
    var a0, b0, c0, d0 := a as bv32, b as bv32, c as bv32, d as bv32;
    var a1 := a0 + b0;
    var d1 := (d0 ^ a1).RotateLeft(16);
    var c1 := c0 + d1;
    var b1 := (b0 ^ c1).RotateLeft(12);
    var a2 := a1 + b1;
    var d2 := (d1 ^ a2).RotateLeft(8);
    var c2 := c1 + d2;
    var b2 := (b1 ^ c2).RotateLeft(7);
    Quad(a2 as Word, b2 as Word, c2 as Word, d2 as Word)
  }

  // --------------------------------------------------------------- state

  /** CHACHA20_STATE_SIZE: the words setup and the block function touch. */
  const StateSize: nat := 16

  /** The first sixteen words of the state list, one field per index. */
  datatype Matrix = Matrix(x0: Word, x1: Word, x2: Word, x3: Word, x4: Word, x5: Word, x6: Word, x7: Word, x8: Word, x9: Word, x10: Word, x11: Word, x12: Word, x13: Word, x14: Word, x15: Word)

  predicate Below33(m: Matrix) {
    Fits33(m.x0)
    && Fits33(m.x1)
    && Fits33(m.x2)
    && Fits33(m.x3)
    && Fits33(m.x4)
    && Fits33(m.x5)
    && Fits33(m.x6)
    && Fits33(m.x7)
    && Fits33(m.x8)
    && Fits33(m.x9)
    && Fits33(m.x10)
    && Fits33(m.x11)
    && Fits33(m.x12)
    && Fits33(m.x13)
    && Fits33(m.x14)
    && Fits33(m.x15)
  }

  predicate Below32(m: Matrix) {
    Fits32(m.x0)
    && Fits32(m.x1)
    && Fits32(m.x2)
    && Fits32(m.x3)
    && Fits32(m.x4)
    && Fits32(m.x5)
    && Fits32(m.x6)
    && Fits32(m.x7)
    && Fits32(m.x8)
    && Fits32(m.x9)
    && Fits32(m.x10)
    && Fits32(m.x11)
    && Fits32(m.x12)
    && Fits32(m.x13)
    && Fits32(m.x14)
    && Fits32(m.x15)
  }

  predicate AllEven(m: Matrix) {
    IsEven(m.x0)
    && IsEven(m.x1)
    && IsEven(m.x2)
    && IsEven(m.x3)
    && IsEven(m.x4)
    && IsEven(m.x5)
    && IsEven(m.x6)
    && IsEven(m.x7)
    && IsEven(m.x8)
    && IsEven(m.x9)
    && IsEven(m.x10)
    && IsEven(m.x11)
    && IsEven(m.x12)
    && IsEven(m.x13)
    && IsEven(m.x14)
    && IsEven(m.x15)
  }

  function ToMatrix(s: seq<Word>): (m: Matrix)
    requires |s| >= StateSize
  {
    Matrix(s[0], s[1], s[2], s[3], s[4], s[5], s[6], s[7], s[8], s[9], s[10], s[11], s[12], s[13], s[14], s[15])
  }

  function ToSeq(m: Matrix): (s: seq<Word>)
    ensures |s| == StateSize
  {
    [m.x0, m.x1, m.x2, m.x3, m.x4, m.x5, m.x6, m.x7, m.x8, m.x9, m.x10, m.x11, m.x12, m.x13, m.x14, m.x15]
  }

  lemma MatrixSeqRoundTrip(m: Matrix, rest: seq<Word>)
    ensures ToMatrix(ToSeq(m) + rest) == m
  {
  }

  /** At least sixteen words, the first sixteen below 2^33. */
  predicate Bounded(s: seq<Word>) {
    |s| >= StateSize && Below33(ToMatrix(s))
  }

  /** One iteration of the loop in chacha20_block: four column rounds, then
      four diagonal rounds, each storing its four results back in place. */
  function DoubleRound(m: Matrix): (r: Matrix)
    requires Below33(m)
    ensures Below32(r)
  {
    var q0 := QuarterRound(m.x0, m.x4, m.x8, m.x12);
    var m0 := m.(x0 := q0.a, x4 := q0.b, x8 := q0.c, x12 := q0.d);
    var q1 := QuarterRound(m0.x1, m0.x5, m0.x9, m0.x13);
    var m1 := m0.(x1 := q1.a, x5 := q1.b, x9 := q1.c, x13 := q1.d);
    var q2 := QuarterRound(m1.x2, m1.x6, m1.x10, m1.x14);
    var m2 := m1.(x2 := q2.a, x6 := q2.b, x10 := q2.c, x14 := q2.d);
    var q3 := QuarterRound(m2.x3, m2.x7, m2.x11, m2.x15);
    var m3 := m2.(x3 := q3.a, x7 := q3.b, x11 := q3.c, x15 := q3.d);
    var q4 := QuarterRound(m3.x0, m3.x5, m3.x10, m3.x15);
    var m4 := m3.(x0 := q4.a, x5 := q4.b, x10 := q4.c, x15 := q4.d);
    var q5 := QuarterRound(m4.x1, m4.x6, m4.x11, m4.x12);
    var m5 := m4.(x1 := q5.a, x6 := q5.b, x11 := q5.c, x12 := q5.d);
    var q6 := QuarterRound(m5.x2, m5.x7, m5.x8, m5.x13);
    var m6 := m5.(x2 := q6.a, x7 := q6.b, x8 := q6.c, x13 := q6.d);
    var q7 := QuarterRound(m6.x3, m6.x4, m6.x9, m6.x14);
    m6.(x3 := q7.a, x4 := q7.b, x9 := q7.c, x14 := q7.d)
  }

  /** The loop `for i in range(10)` of chacha20_block. */
  const DoubleRoundCount: nat := 10

  /** A state list the block function can work on: at least sixteen words,
      the first sixteen below 2^33. */
  type StateList = s: seq<Word> | Bounded(s)
    witness [0, 0, 0, 0, 0, 0, 0, 0, 0, 0, 0, 0, 0, 0, 0, 0]

  /** The list `s` with its first sixteen words replaced by those of `m`. */
  function Store(s: seq<Word>, m: Matrix): (r: seq<Word>)
    requires |s| >= StateSize
    ensures |r| == |s| && r[StateSize..] == s[StateSize..]
    ensures ToMatrix(r) == m
  {
    MatrixSeqRoundTrip(m, s[StateSize..]);
    ToSeq(m) + s[StateSize..]
  }

  lemma Below32IsBelow33(m: Matrix)
    requires Below32(m)
    ensures Below33(m)
  {
  }

  /** The second loop of chacha20_block, `x[i] += ctx.state[i]`, where `x`
      and `ctx.state` are the same list: each word is added to itself. */
  function SelfAdd(m: Matrix): (r: Matrix)
    requires Below32(m)
    ensures Below33(r) && AllEven(r)
  {
    Matrix(m.x0 + m.x0, m.x1 + m.x1, m.x2 + m.x2, m.x3 + m.x3, m.x4 + m.x4, m.x5 + m.x5, m.x6 + m.x6, m.x7 + m.x7, m.x8 + m.x8, m.x9 + m.x9, m.x10 + m.x10, m.x11 + m.x11, m.x12 + m.x12, m.x13 + m.x13, m.x14 + m.x14, m.x15 + m.x15)
  }

  /** The rest of chacha20_block when `n` iterations of its first loop remain:
      those double rounds, then the self-addition. The block works on
      `ctx.state` in place, so each iteration reads the words the previous
      one stored. With no iteration left, the self-addition needs the words
      below 2^32, as a double round leaves them. The loop is split over two
      functions so that one unfolding of it exposes no iteration. */
  function Rounds(s: StateList, n: nat): (r: StateList)
    requires n > 0 || Below32(ToMatrix(s))
    ensures |r| == |s| && r[StateSize..] == s[StateSize..]
    ensures AllEven(ToMatrix(r))
    decreases n, s, 1  // s is listed so that a literal count alone does not unroll the loop
  {
    if n == 0 then Store(s, SelfAdd(ToMatrix(s))) else RoundsFrom(s, n)
  }

  /** One double round stored back into the list, then the rest. */
  function RoundsFrom(s: StateList, n: nat): (r: StateList)
    requires n > 0
    ensures |r| == |s| && r[StateSize..] == s[StateSize..]
    ensures AllEven(ToMatrix(r))
    decreases n, s, 0
  {
    var m := DoubleRound(ToMatrix(s));
    Below32IsBelow33(m);
    Rounds(Store(s, m), n - 1)
  }

  /** chacha20_block on the context's state list: ten double rounds, then the
      self-addition, which leaves every one of the first sixteen words even.
      The words from index 16 on are never touched. */
  function Block(s: StateList): (r: StateList)
    ensures |r| == |s| && r[StateSize..] == s[StateSize..]
    ensures AllEven(ToMatrix(r))
  {
    Rounds(s, DoubleRoundCount)
  }

  /** `n` double rounds on sixteen words, with nothing stored anywhere: the
      first loop of chacha20_block read as a plain iteration. */
  function MatrixRounds(m: Matrix, n: nat): (r: Matrix)
    requires Below33(m)
    ensures Below33(r)
    ensures n > 0 ==> Below32(r)
    decreases n, m  // m is listed so that a literal count alone does not unroll the loop
  {
    if n == 0 then m
    else
      var d := DoubleRound(m);
      Below32IsBelow33(d);
      MatrixRounds(d, n - 1)
  }

  /** The in-place loop with `n > 0` iterations left computes those double
      rounds on the first sixteen words, then doubles each of them. */
  lemma {:induction false} RoundsFromDoubles(s: StateList, n: nat)
    requires n > 0
    ensures ToMatrix(RoundsFrom(s, n)) == SelfAdd(MatrixRounds(ToMatrix(s), n))
    decreases n
  {
    hide DoubleRound;  // only the bound the double round guarantees matters here
    var d := DoubleRound(ToMatrix(s));
    Below32IsBelow33(d);
    var t: StateList := Store(s, d);
    if n > 1 {
      RoundsFromDoubles(t, n - 1);
      assert Rounds(t, n - 1) == RoundsFrom(t, n - 1);
    }
  }

  /** chacha20_block leaves each of the first sixteen words equal to twice
      the word that ten double rounds put there. */
  lemma BlockDoubles(s: StateList)
    ensures ToMatrix(Block(s)) == SelfAdd(MatrixRounds(ToMatrix(s), DoubleRoundCount))
  {
    RoundsFromDoubles(s, DoubleRoundCount);
  }

  // --------------------------------------------------- hexadecimal words

  /** The value of one hexadecimal digit. */
  function DigitWord(c: char): (r: Word)
    requires IsHexDigit(c)
    ensures r < 16
  {
    match c
    case '0' => 0x0 case '1' => 0x1 case '2' => 0x2 case '3' => 0x3
    case '4' => 0x4 case '5' => 0x5 case '6' => 0x6 case '7' => 0x7
    case '8' => 0x8 case '9' => 0x9
    case 'a' => 0xa case 'b' => 0xb case 'c' => 0xc
    case 'd' => 0xd case 'e' => 0xe case 'f' => 0xf
    case 'A' => 0xa case 'B' => 0xb case 'C' => 0xc
    case 'D' => 0xd case 'E' => 0xe case 'F' => 0xf
    case _ => assert false; 0
  }

  /** The lower-case digit for a value below 16. */
  function DigitChar(d: Word): (c: char)
    requires d < 16
    ensures IsHexDigit(c) && DigitWord(c) == d
  {
    if d < 8 then
      if d < 4 then
        if d < 2 then (if d == 0 then '0' else '1') else (if d == 2 then '2' else '3')
      else if d < 6 then (if d == 4 then '4' else '5') else (if d == 6 then '6' else '7')
    else if d < 12 then
      if d < 10 then (if d == 8 then '8' else '9') else (if d == 10 then 'a' else 'b')
    else if d < 14 then (if d == 12 then 'c' else 'd') else (if d == 14 then 'e' else 'f')
  }

  /** 16^n for a count of at most eight digits: the first value that needs
      n + 1 digits. */
  function Limit(n: nat): (p: Word)
    requires n <= 8
    ensures 1 <= p <= 0x1_0000_0000
    ensures n > 0 ==> p == Limit(n - 1) << 4
  {
    if n == 0 then 1 else Limit(n - 1) << 4
  }

  /** Appends one digit `d` to the value `x`. */
  function Shift4(x: Word, d: Word): Word {
    (x << 4) | d
  }

  /** At most eight hexadecimal digits, most significant first, as a word. */
  function HexWord(t: seq<char>): (r: Word)
    requires AllHex(t) && |t| <= 8
    ensures r < Limit(|t|)
  {
    if |t| == 0 then 0 else Shift4(HexWord(t[..|t| - 1]), DigitWord(t[|t| - 1]))
  }

  /** `int(t, 16)` for a slice `t` of at most eight characters: ValueError
      (here `None`) on the empty string or a character that is not a
      hexadecimal digit. */
  function ParseWord(t: seq<char>): (r: Option<Word>)
    requires |t| <= 8
    ensures r.Some? <==> |t| > 0 && AllHex(t)
    ensures r.Some? ==> Fits32(r.value)
  {
    if |t| == 0 || !AllHex(t) then None else Some(HexWord(t))
  }

  /** The eight-digit, zero-padded, lower-case hexadecimal text of a word,
      Python's `'%08x' % w`. */
  function WordText(w: Word): (t: seq<char>)
    ensures |t| == 8 && AllHex(t)
  {
    [DigitChar((w >> 28) & 0xf), DigitChar((w >> 24) & 0xf),
     DigitChar((w >> 20) & 0xf), DigitChar((w >> 16) & 0xf),
     DigitChar((w >> 12) & 0xf), DigitChar((w >> 8) & 0xf),
     DigitChar((w >> 4) & 0xf), DigitChar(w & 0xf)]
  }

  lemma AppendDigit(t: seq<char>)
    requires AllHex(t) && 0 < |t| <= 8
    ensures HexWord(t) == Shift4(HexWord(t[..|t| - 1]), DigitWord(t[|t| - 1]))
  {
  }

  /** The first four digits of the text of a word read as its four high
      nibbles. */
  lemma HighDigits(w: Word)
    ensures HexWord(WordText(w)[..4]) ==
      Shift4(Shift4(Shift4(Shift4(0, (w >> 28) & 0xf), (w >> 24) & 0xf), (w >> 20) & 0xf), (w >> 16) & 0xf)
  {
    var t := WordText(w);
    assert DigitWord(t[0]) == (w >> 28) & 0xf && DigitWord(t[1]) == (w >> 24) & 0xf;
    assert DigitWord(t[2]) == (w >> 20) & 0xf && DigitWord(t[3]) == (w >> 16) & 0xf;
    AppendDigit(t[..4]);
    assert t[..4][..3] == t[..3];
    AppendDigit(t[..3]);
    assert t[..3][..2] == t[..2];
    AppendDigit(t[..2]);
    assert t[..2][..1] == t[..1];
    AppendDigit(t[..1]);
    assert t[..1][..0] == [];
  }

  /** Reading the text of a word appends its eight nibbles, most significant
      first. */
  lemma WordTextDigits(w: Word)
    ensures HexWord(WordText(w)) ==
      Shift4(Shift4(Shift4(Shift4(Shift4(Shift4(Shift4(Shift4(0,
        (w >> 28) & 0xf), (w >> 24) & 0xf), (w >> 20) & 0xf), (w >> 16) & 0xf),
        (w >> 12) & 0xf), (w >> 8) & 0xf), (w >> 4) & 0xf), w & 0xf)
  {
    var t := WordText(w);
    HighDigits(w);
    assert DigitWord(t[4]) == (w >> 12) & 0xf && DigitWord(t[5]) == (w >> 8) & 0xf;
    assert DigitWord(t[6]) == (w >> 4) & 0xf && DigitWord(t[7]) == w & 0xf;
    assert t[..8] == t;
    AppendDigit(t[..8]);
    assert t[..8][..7] == t[..7];
    AppendDigit(t[..7]);
    assert t[..7][..6] == t[..6];
    AppendDigit(t[..6]);
    assert t[..6][..5] == t[..5];
    AppendDigit(t[..5]);
    assert t[..5][..4] == t[..4];
  }

  /** Appending the eight nibbles of a 32-bit word rebuilds the word. */
  lemma NibblesRebuildWord(w: Word)
    requires Fits32(w)
    ensures Shift4(Shift4(Shift4(Shift4(Shift4(Shift4(Shift4(Shift4(0,
        (w >> 28) & 0xf), (w >> 24) & 0xf), (w >> 20) & 0xf), (w >> 16) & 0xf),
        (w >> 12) & 0xf), (w >> 8) & 0xf), (w >> 4) & 0xf), w & 0xf) == w
  {
  }

  /** Reading back the text of a 32-bit word gives the word. */
  lemma ParseWordText(w: Word)
    requires Fits32(w)
    ensures ParseWord(WordText(w)) == Some(w)
  {
    WordTextDigits(w);
    NibblesRebuildWord(w);
  }

  /** The eight-character slice `text[8 * w : 8 * w + 8]` of key or nonce text,
      read as a word. */
  function TextWord(text: seq<char>, w: nat): (r: Option<Word>)
    ensures r.Some? <==> |text| > 8 * w && AllHex(Slice(text, 8 * w, 8 * w + 8))
    ensures r.Some? ==> Fits32(r.value)
  {
    ParseWord(Slice(text, 8 * w, 8 * w + 8))
  }

  /** The first `n` words of key or nonce text, each None where `int(…, 16)`
      raises. */
  function TextWords(text: seq<char>, n: nat): (r: seq<Option<Word>>)
    ensures |r| == n
    ensures forall w {:trigger TextWord(text, w)} :: 0 <= w < n ==> r[w] == TextWord(text, w)
    ensures forall w :: 0 <= w < n && r[w].Some? ==> Fits32(r[w].value)
    decreases n, text  // text is listed so that a literal count alone does not unroll the list
  {
    if n == 0 then [] else TextWords(text, n - 1) + [TextWord(text, n - 1)]
  }

  // --------------------------------------------------------------- setup

  /** The context's counter. The class sets it to 0 and nothing changes it;
      the model admits any 32-bit value. */
  type Counter = c: Word | c <= 0xffff_ffff

  /** ChaCha20_ctx: the state list, the counter, and a nonce that is stored
      but never read by any operation. */
  datatype Ctx = Ctx(state: seq<Word>, counter: Counter, nonce: int)

  /** The exceptions the cipher can raise: `int('', 16)` or a byte outside
      0..255 raise ValueError, a store past the end of a short state list
      raises IndexError. */
  datatype Error = ValueError | IndexError

  /** The words "expand 32-byte k" that setup writes first. */
  const Sigma0: Word := 0x61707865
  const Sigma1: Word := 0x3320646e
  const Sigma2: Word := 0x79622d32
  const Sigma3: Word := 0x6b206574

  /** What chacha20_setup reads: the counter, and the eight key words and
      three nonce words, each None where `int(…, 16)` raises. */
  datatype SetupInputs = SetupInputs(counter: Counter, key: seq<Option<Word>>, nonce: seq<Option<Word>>)

  predicate WordsFit(ws: seq<Option<Word>>) {
    forall w :: 0 <= w < |ws| && ws[w].Some? ==> Fits32(ws[w].value)
  }

  predicate WellRead(a: SetupInputs) {
    |a.key| == 8 && |a.nonce| == 3 && WordsFit(a.key) && WordsFit(a.nonce)
  }

  function ReadInputs(counter: Counter, key: seq<char>, nonce: seq<char>): (a: SetupInputs)
    ensures WellRead(a)
  {
    SetupInputs(counter, TextWords(key, 8), TextWords(nonce, 3))
  }

  /** The right-hand side of the assignment to `state[i]` in chacha20_setup,
      or None where it raises ValueError. */
  function SetupValue(i: nat, a: SetupInputs): (r: Option<Word>)
    requires i < StateSize && WellRead(a)
    ensures r.Some? ==> Fits32(r.value)
  {
    if i == 0 then Some(Sigma0)
    else if i == 1 then Some(Sigma1)
    else if i == 2 then Some(Sigma2)
    else if i == 3 then Some(Sigma3)
    else if i < 12 then a.key[i - 4]
    else if i == 12 then Some(a.counter)
    else a.nonce[i - 13]
  }

  /** The assignments of chacha20_setup from `state[i]` on, in order: each
      right-hand side is evaluated (ValueError) before its store (IndexError
      on a list of `n < 16` words). The result is the exception raised, if
      any. A ValueError wins exactly when some failing right-hand side comes
      no later than the first missing index. */
  function SetupFailure(i: nat, n: nat, a: SetupInputs): (r: Option<Error>)
    requires i <= StateSize && i <= n && WellRead(a)
    decreases StateSize - i
    ensures r == Some(ValueError) <==>
              exists j :: i <= j < StateSize && j <= n && SetupValue(j, a).None?
    ensures r == Some(IndexError) <==>
              n < StateSize && forall j :: i <= j <= n ==> SetupValue(j, a).Some?
    ensures r == None <==>
              n >= StateSize && forall j :: i <= j < StateSize ==> SetupValue(j, a).Some?
  {
    if i == StateSize then None
    else if SetupValue(i, a).None? then Some(ValueError)
    else if i == n then Some(IndexError)
    else SetupFailure(i + 1, n, a)
  }

  /** Every right-hand side of chacha20_setup evaluates. */
  predicate SetupDefined(a: SetupInputs)
    requires WellRead(a)
  {
    forall j :: 0 <= j < StateSize ==> SetupValue(j, a).Some?
  }

  /** The sixteen words chacha20_setup assigns. */
  function SetupMatrix(a: SetupInputs): (m: Matrix)
    requires WellRead(a) && SetupDefined(a)
    ensures SetupValue(0, a) == Some(m.x0)
    ensures SetupValue(1, a) == Some(m.x1)
    ensures SetupValue(2, a) == Some(m.x2)
    ensures SetupValue(3, a) == Some(m.x3)
    ensures SetupValue(4, a) == Some(m.x4)
    ensures SetupValue(5, a) == Some(m.x5)
    ensures SetupValue(6, a) == Some(m.x6)
    ensures SetupValue(7, a) == Some(m.x7)
    ensures SetupValue(8, a) == Some(m.x8)
    ensures SetupValue(9, a) == Some(m.x9)
    ensures SetupValue(10, a) == Some(m.x10)
    ensures SetupValue(11, a) == Some(m.x11)
    ensures SetupValue(12, a) == Some(m.x12)
    ensures SetupValue(13, a) == Some(m.x13)
    ensures SetupValue(14, a) == Some(m.x14)
    ensures SetupValue(15, a) == Some(m.x15)
    ensures Below32(m)
  {
    Matrix(
      Sigma0, Sigma1, Sigma2, Sigma3,
      SetupValue(4, a).value, SetupValue(5, a).value,
      SetupValue(6, a).value, SetupValue(7, a).value,
      SetupValue(8, a).value, SetupValue(9, a).value,
      SetupValue(10, a).value, SetupValue(11, a).value,
      a.counter,
      SetupValue(13, a).value, SetupValue(14, a).value,
      SetupValue(15, a).value)
  }

  /** chacha20_setup(ctx, key, nonce): the exception raised, or the context
      with its first sixteen words assigned. */
  function Setup(ctx: Ctx, key: seq<char>, nonce: seq<char>): (r: Result<Ctx, Error>)
    ensures var a := ReadInputs(ctx.counter, key, nonce);
            && (r.Ok? <==> |ctx.state| >= StateSize && SetupDefined(a))
            && (r == Err(ValueError) <==>
                  exists j :: 0 <= j < StateSize && j <= |ctx.state| && SetupValue(j, a).None?)
            && (r == Err(IndexError) <==>
                  |ctx.state| < StateSize && forall j :: 0 <= j <= |ctx.state| ==> SetupValue(j, a).Some?)
            && (r.Ok? ==>
                  && r.value.counter == ctx.counter
                  && r.value.nonce == ctx.nonce
                  && |r.value.state| == |ctx.state|
                  && r.value.state[StateSize..] == ctx.state[StateSize..]
                  && ToMatrix(r.value.state) == SetupMatrix(a))
  {
    var a := ReadInputs(ctx.counter, key, nonce);
    match SetupFailure(0, |ctx.state|, a)
    case Some(e) => Err(e)
    case None =>
      var m := SetupMatrix(a);
      MatrixSeqRoundTrip(m, ctx.state[StateSize..]);
      Ok(ctx.(state := ToSeq(m) + ctx.state[StateSize..]))
  }

  /** Setup reads nothing of the old first sixteen words: two contexts that
      agree on the counter, the nonce, the length of the state list and its
      words from index 16 on are set up alike. */
  lemma SetupForgets(ctx1: Ctx, ctx2: Ctx, key: seq<char>, nonce: seq<char>)
    requires ctx1.counter == ctx2.counter && ctx1.nonce == ctx2.nonce
    requires |ctx1.state| == |ctx2.state|
    requires |ctx1.state| >= StateSize ==> ctx1.state[StateSize..] == ctx2.state[StateSize..]
    ensures Setup(ctx1, key, nonce) == Setup(ctx2, key, nonce)
  {
  }

  /** Setting up a context that setup produced changes nothing. */
  lemma SetupIdempotent(ctx: Ctx, key: seq<char>, nonce: seq<char>)
    requires Setup(ctx, key, nonce).Ok?
    ensures Setup(Setup(ctx, key, nonce).value, key, nonce) == Setup(ctx, key, nonce)
  {
    SetupForgets(Setup(ctx, key, nonce).value, ctx, key, nonce);
  }

  /** Hexadecimal key text of at least 57 characters and nonce text of at
      least 17 leave every slice setup reads non-empty and hexadecimal, so
      setup succeeds on any list of at least sixteen words. */
  lemma SetupAccepts(ctx: Ctx, key: seq<char>, nonce: seq<char>)
    requires |ctx.state| >= StateSize
    requires AllHex(key) && |key| > 56 && AllHex(nonce) && |nonce| > 16
    ensures Setup(ctx, key, nonce).Ok?
  {
    var a := ReadInputs(ctx.counter, key, nonce);
    forall w | 0 <= w < 8
      ensures TextWord(key, w).Some?
    {
      SliceOfHex(key, 8 * w, 8 * w + 8);
    }
    forall w | 0 <= w < 3
      ensures TextWord(nonce, w).Some?
    {
      SliceOfHex(nonce, 8 * w, 8 * w + 8);
    }
    forall j | 0 <= j < StateSize
      ensures SetupValue(j, a).Some?
    {
      if 4 <= j < 12 {
        assert a.key[j - 4] == TextWord(key, j - 4);
      } else if 13 <= j {
        assert a.nonce[j - 13] == TextWord(nonce, j - 13);
      }
    }
  }

  /** Key or nonce text spelling the words `ws`, eight digits per word, in
      the form setup reads them. */
  function Texts(ws: seq<Word>): (t: seq<char>)
    ensures |t| == 8 * |ws| && AllHex(t)
  {
    if |ws| == 0 then [] else WordText(ws[0]) + Texts(ws[1..])
  }

  /** The slice `[8w : 8w + 8]` of that text is the text of word `w`. */
  lemma {:induction false} TextsSlice(ws: seq<Word>, w: nat)
    requires w < |ws|
    ensures Slice(Texts(ws), 8 * w, 8 * w + 8) == WordText(ws[w])
    decreases w
  {
    hide WordText;  // only its length matters here
    var t := Texts(ws);
    if w == 0 {
      assert t[0..8] == WordText(ws[0]);
    } else {
      TextsSlice(ws[1..], w - 1);
      assert t[8 * w .. 8 * w + 8] == Texts(ws[1..])[8 * (w - 1) .. 8 * (w - 1) + 8];
    }
  }

  /** Each slice of the text spelling 32-bit words reads back its word. */
  lemma TextsWord(ws: seq<Word>, w: nat)
    requires w < |ws| && Fits32(ws[w])
    ensures TextWord(Texts(ws), w) == Some(ws[w])
  {
    TextsSlice(ws, w);
    ParseWordText(ws[w]);
  }

  /** What setup reads from key text spelling the words `k` and nonce text
      spelling the words `n`: those words, every one of them defined. */
  lemma ReadWords(counter: Counter, k: seq<Word>, n: seq<Word>)
    requires |k| == 8 && forall i :: 0 <= i < 8 ==> Fits32(k[i])
    requires |n| == 3 && forall i :: 0 <= i < 3 ==> Fits32(n[i])
    ensures var a := ReadInputs(counter, Texts(k), Texts(n));
            && a.counter == counter
            && (forall w :: 0 <= w < 8 ==> a.key[w] == Some(k[w]))
            && (forall w :: 0 <= w < 3 ==> a.nonce[w] == Some(n[w]))
            && SetupDefined(a)
  {
    hide Texts, WordText;  // each word is read back by TextsWord
    var a := ReadInputs(counter, Texts(k), Texts(n));
    forall w | 0 <= w < 8
      ensures a.key[w] == Some(k[w])
    {
      TextsWord(k, w);
    }
    forall w | 0 <= w < 3
      ensures a.nonce[w] == Some(n[w])
    {
      TextsWord(n, w);
    }
    forall j | 0 <= j < StateSize
      ensures SetupValue(j, a).Some?
    {
      if 4 <= j < 12 {
        assert a.key[j - 4] == Some(k[j - 4]);
      } else if 13 <= j {
        assert a.nonce[j - 13] == Some(n[j - 13]);
      }
    }
  }

  /** On success, setup has stored each right-hand side at its index. */
  lemma SetupStores(ctx: Ctx, key: seq<char>, nonce: seq<char>)
    requires Setup(ctx, key, nonce).Ok?
    ensures var st := Setup(ctx, key, nonce).value.state;
            var a := ReadInputs(ctx.counter, key, nonce);
            forall i :: 0 <= i < StateSize ==> SetupValue(i, a) == Some(st[i])
  {
    hide Setup, ReadInputs;  // setup's contract already names the matrix it stores
    var st := Setup(ctx, key, nonce).value.state;
    var a := ReadInputs(ctx.counter, key, nonce);
    assert ToMatrix(st) == SetupMatrix(a);
  }

  /** Setup reads key and nonce big-endian, eight digits per word: with key
      text spelling the eight words `k` and nonce text spelling the three
      words `n`, setup succeeds on any list of sixteen or more words and
      stores the constants, then `k`, then the counter, then `n`. */
  lemma SetupWords(ctx: Ctx, k: seq<Word>, n: seq<Word>)
    requires |ctx.state| >= StateSize
    requires |k| == 8 && forall i :: 0 <= i < 8 ==> Fits32(k[i])
    requires |n| == 3 && forall i :: 0 <= i < 3 ==> Fits32(n[i])
    ensures Setup(ctx, Texts(k), Texts(n)).Ok?
    ensures var st := Setup(ctx, Texts(k), Texts(n)).value.state;
            && (forall i :: 0 <= i < 4 ==> st[i] == [Sigma0, Sigma1, Sigma2, Sigma3][i])
            && (forall i :: 0 <= i < 8 ==> st[4 + i] == k[i])
            && st[12] == ctx.counter
            && (forall i :: 0 <= i < 3 ==> st[13 + i] == n[i])
  {
    hide Texts, WordText, Setup, ReadInputs;  // only the words read back and the words stored matter here
    ReadWords(ctx.counter, k, n);
    SetupStores(ctx, Texts(k), Texts(n));
  }

  // ------------------------------------------------------------- encrypt

  /** `w % 256`: the keystream byte taken from a state word. */
  function LowByte(w: Word): bv8 {
    (w % 256) as bv8
  }

  /** An even word gives an even keystream byte. */
  lemma EvenByte(w: Word)
    requires IsEven(w)
    ensures LowByte(w) & 1 == 0
  {
  }

  function XorByte(a: bv8, b: bv8): bv8 {
    a ^ b
  }

  lemma XorByteTwice(a: bv8, b: bv8)
    ensures XorByte(XorByte(a, b), b) == a
  {
  }

  /** The message bytes `ps` XORed, position by position, with the key
      bytes `ks`. */
  function XorBytes(ps: seq<bv8>, ks: seq<bv8>): (r: seq<bv8>)
    requires |ps| == |ks|
    ensures |r| == |ps|
    ensures forall j :: 0 <= j < |ps| ==> r[j] == XorByte(ps[j], ks[j])
  {
    if |ps| == 0 then [] else [XorByte(ps[0], ks[0])] + XorBytes(ps[1..], ks[1..])
  }

  /** XORing one more byte extends the XOR of the earlier bytes. */
  lemma XorBytesSnoc(ps: seq<bv8>, ks: seq<bv8>, p: bv8, k: bv8)
    requires |ps| == |ks|
    ensures XorBytes(ps + [p], ks + [k]) == XorBytes(ps, ks) + [XorByte(p, k)]
  {
    assert forall j :: 0 <= j < |ps| ==> (ps + [p])[j] == ps[j] && (ks + [k])[j] == ks[j];
  }

  /** XORing the same key bytes twice gives the message back. */
  lemma XorBytesInvolution(ps: seq<bv8>, ks: seq<bv8>)
    requires |ps| == |ks|
    ensures XorBytes(XorBytes(ps, ks), ks) == ps
  {
    var r := XorBytes(XorBytes(ps, ks), ks);
    forall j | 0 <= j < |ps|
      ensures r[j] == ps[j]
    {
      XorByteTwice(ps[j], ks[j]);
    }
  }

  /** The plaintext or ciphertext argument: a `str` is iterated as characters,
      a `bytes` object as ints. */
  datatype Message = Text(chars: seq<char>) | Bytes(bytes: seq<bv8>)

  function Length(msg: Message): nat {
    match msg
    case Text(t) => |t|
    case Bytes(b) => |b|
  }

  /** `ord(c)` for a character below 256. */
  function CharByte(c: char): bv8
    requires c as int < 256
  {
    (c as int) as bv8
  }

  /** The ints the loop XORs, or None when some character is above 255, where
      `bytes([…])` raises ValueError (the XOR with a byte leaves bits above 7
      set). */
  function MessageBytes(msg: Message): (r: Option<seq<bv8>>)
    ensures msg.Bytes? ==> r == Some(msg.bytes)
    ensures msg.Text? ==> (r.Some? <==> forall j :: 0 <= j < |msg.chars| ==> msg.chars[j] as int < 256)
    ensures r.Some? ==> |r.value| == Length(msg)
    ensures msg.Text? && r.Some? ==>
              forall j :: 0 <= j < |msg.chars| ==> r.value[j] == CharByte(msg.chars[j])
  {
    match msg
    case Bytes(b) => Some(b)
    case Text(t) => TextBytes(t)
  }

  function TextBytes(t: seq<char>): (r: Option<seq<bv8>>)
    ensures r.Some? <==> forall j :: 0 <= j < |t| ==> t[j] as int < 256
    ensures r.Some? ==> |r.value| == |t| && forall j :: 0 <= j < |t| ==> r.value[j] == CharByte(t[j])
  {
    if |t| == 0 then Some([])
    else if t[0] as int >= 256 then None
    else match TextBytes(t[1..])
      case None => None
      case Some(rest) => Some([CharByte(t[0])] + rest)
  }

  /** `ctx.counter % len(ctx.state)`: the word the loop reads. */
  function Index(c: Counter, s: StateList): (i: nat)
    ensures i < |s|
  {
    (c as int) % |s|
  }

  /** What the loop does to the state before each byte: chacha20_block runs
      when the counter selects word 0, and not otherwise. */
  function Step(c: Counter, s: StateList): (r: StateList)
    ensures |r| == |s| && r[StateSize..] == s[StateSize..]
    ensures Index(c, s) != 0 ==> r == s
    ensures Index(c, s) == 0 ==> AllEven(ToMatrix(r))
  {
    if Index(c, s) == 0 then Block(s) else s
  }

  /** The state list after the loop has processed `n` bytes from `s`. Since
      the counter never changes and the length of the list is kept, either
      every step runs the block function or none does. */
  function Advance(c: Counter, s: StateList, n: nat): (r: StateList)
    ensures |r| == |s| && r[StateSize..] == s[StateSize..]
    ensures Index(c, r) == Index(c, s)
    ensures Index(c, s) != 0 ==> r == s
    ensures Index(c, s) == 0 && n > 0 ==> AllEven(ToMatrix(r))
    decreases n
  {
    if n == 0 then s else Advance(c, Step(c, s), n - 1)
  }

  /** The key byte `ctx.state[ctx.counter % len(ctx.state)] % 256`: the
      remainder of the selected word modulo 256. */
  function KeyByte(c: Counter, s: StateList): (b: bv8)
    ensures b as Word <= s[(c as int) % |s|] && (s[(c as int) % |s|] - b as Word) % 256 == 0
  {
    LowByte(s[Index(c, s)])
  }

  /** The key bytes the loop XORs into `n` successive message bytes, each
      read after its step. */
  function Keystream(c: Counter, s: StateList, n: nat): (ks: seq<bv8>)
    ensures |ks| == n
    decreases n
  {
    if n == 0 then [] else [KeyByte(c, Step(c, s))] + Keystream(c, Step(c, s), n - 1)
  }

  /** With the counter selecting word 0, every step of the loop is a run of
      chacha20_block on the list the previous step left. */
  lemma AdvanceBlocks(c: Counter, s: StateList, n: nat)
    requires Index(c, s) == 0 && n > 0
    ensures Advance(c, s, n) == Block(Advance(c, s, n - 1))
  {
    AdvanceLast(c, s, n - 1);
  }

  /** The step after the first `n`. */
  lemma {:induction false} AdvanceLast(c: Counter, s: StateList, n: nat)
    ensures Advance(c, s, n + 1) == Step(c, Advance(c, s, n))
    decreases n
  {
    if n > 0 {
      AdvanceLast(c, Step(c, s), n - 1);
    }
  }

  /** One more byte appends the key byte read from the state after one more
      step. */
  lemma {:induction false} KeystreamLast(c: Counter, s: StateList, n: nat)
    ensures Keystream(c, s, n + 1) == Keystream(c, s, n) + [KeyByte(c, Advance(c, s, n + 1))]
    decreases n
  {
    if n > 0 {
      KeystreamLast(c, Step(c, s), n - 1);
    }
  }

  /** The `j`-th key byte is read from the state after `j + 1` steps. */
  lemma {:induction false} KeystreamAt(c: Counter, s: StateList, n: nat, j: nat)
    requires j < n
    ensures Keystream(c, s, n)[j] == KeyByte(c, Advance(c, s, j + 1))
    decreases n
  {
    if j > 0 {
      KeystreamAt(c, Step(c, s), n - 1, j - 1);
    }
  }

  /** When the counter does not select word 0, every key byte is the same
      byte: the word the counter selects, as it was after setup. */
  lemma KeystreamIdle(c: Counter, s: StateList, n: nat)
    requires Index(c, s) != 0
    ensures forall j :: 0 <= j < n ==> Keystream(c, s, n)[j] == KeyByte(c, s)
  {
    forall j | 0 <= j < n
      ensures Keystream(c, s, n)[j] == KeyByte(c, s)
    {
      KeystreamAt(c, s, n, j);
    }
  }

  /** When the counter selects word 0, every key byte is even. */
  lemma KeystreamEven(c: Counter, s: StateList, n: nat)
    requires Index(c, s) == 0
    ensures forall j :: 0 <= j < n ==> Keystream(c, s, n)[j] & 1 == 0
  {
    forall j | 0 <= j < n
      ensures Keystream(c, s, n)[j] & 1 == 0
    {
      KeystreamAt(c, s, n, j);
      EvenByte(Advance(c, s, j + 1)[0]);
    }
  }

  /** One more iteration of the loop XORs one more byte, with the key byte
      read after one more step. */
  lemma NextByte(c: Counter, s: StateList, ps: seq<bv8>, i: nat)
    requires i < |ps|
    ensures XorBytes(ps[..i + 1], Keystream(c, s, i + 1)) ==
              XorBytes(ps[..i], Keystream(c, s, i)) + [XorByte(ps[i], KeyByte(c, Advance(c, s, i + 1)))]
  {
    var ks := Keystream(c, s, i);
    var k := KeyByte(c, Advance(c, s, i + 1));
    KeystreamLast(c, s, i);
    assert ps[..i + 1] == ps[..i] + [ps[i]];
    XorBytesSnoc(ps[..i], ks, ps[i], k);
  }

  /** The loop of chacha20_encrypt over the message bytes `ps`, from the state
      list `s` that setup produced. Returns the final state list and the
      output bytes. */
  method EncryptLoop(c: Counter, s: StateList, ps: seq<bv8>) returns (t: StateList, out: seq<bv8>)
    ensures t == Advance(c, s, |ps|)
    ensures out == XorBytes(ps, Keystream(c, s, |ps|))
  {
    t, out := s, [];
    for i := 0 to |ps|
      invariant t == Advance(c, s, i)
      invariant out == XorBytes(ps[..i], Keystream(c, s, i))
    {
      t := Step(c, t);
      out := out + [XorByte(ps[i], LowByte(t[Index(c, t)]))];
      AdvanceLast(c, s, i);
      NextByte(c, s, ps, i);
    }
    assert ps[..|ps|] == ps;
  }

  /** The state list setup leaves, as the loop sees it: its first sixteen
      words are below 2^32. */
  function SetupState(ctx: Ctx, key: seq<char>, nonce: seq<char>): (s: StateList)
    requires Setup(ctx, key, nonce).Ok?
    ensures s == Setup(ctx, key, nonce).value.state
  {
    var st := Setup(ctx, key, nonce).value.state;
    Below32IsBelow33(ToMatrix(st));
    st
  }

  /** What chacha20_encrypt returns, and the context it leaves behind: setup
      and the block function mutate the caller's context object. */
  datatype Encrypted = Encrypted(ctx: Ctx, text: seq<bv8>)

  /** chacha20_encrypt(ctx, msg, key, nonce): setup, then for each message
      byte the step and the XOR with the key byte. An exception of setup is
      raised before the loop; a character above 255 raises ValueError. */
  function Encrypt(ctx: Ctx, msg: Message, key: seq<char>, nonce: seq<char>): (r: Result<Encrypted, Error>)
    ensures Setup(ctx, key, nonce).Err? ==> r == Err(Setup(ctx, key, nonce).error)
    ensures Setup(ctx, key, nonce).Ok? ==> (r.Ok? <==> MessageBytes(msg).Some?)
    ensures Setup(ctx, key, nonce).Ok? && r.Err? ==> r.error == ValueError
    ensures r.Ok? ==>
              && |r.value.text| == Length(msg)
              && r.value.ctx.counter == ctx.counter
              && r.value.ctx.nonce == ctx.nonce
              && |r.value.ctx.state| == |ctx.state|
              && r.value.ctx.state[StateSize..] == ctx.state[StateSize..]
  {
    match Setup(ctx, key, nonce)
    case Err(e) => Err(e)
    case Ok(ready) =>
      match MessageBytes(msg)
      case None => Err(ValueError)
      case Some(ps) =>
        var s := SetupState(ctx, key, nonce);
        Ok(Encrypted(ready.(state := Advance(ready.counter, s, |ps|)), XorBytes(ps, Keystream(ready.counter, s, |ps|))))
  }

  /** chacha20_encrypt with its loop written out. */
  method EncryptMethod(ctx: Ctx, msg: Message, key: seq<char>, nonce: seq<char>) returns (r: Result<Encrypted, Error>)
    ensures r == Encrypt(ctx, msg, key, nonce)
  {
    var ready := Setup(ctx, key, nonce);
    if ready.Err? {
      return Err(ready.error);
    }
    var bytes := MessageBytes(msg);
    if bytes.None? {
      return Err(ValueError);
    }
    var s := SetupState(ctx, key, nonce);
    var t, out := EncryptLoop(ready.value.counter, s, bytes.value);
    r := Ok(Encrypted(ready.value.(state := t), out));
  }

  /** chacha20_decrypt is chacha20_encrypt. On a `bytes` ciphertext it fails
      only where setup fails. */
  function Decrypt(ctx: Ctx, msg: Message, key: seq<char>, nonce: seq<char>): (r: Result<Encrypted, Error>)
    ensures msg.Bytes? ==> (r.Ok? <==> Setup(ctx, key, nonce).Ok?)
    ensures r.Ok? ==> |r.value.text| == Length(msg)
  {
    Encrypt(ctx, msg, key, nonce)
  }

  /** Byte `j` of the ciphertext is message byte `j` XOR the low byte of the
      word the counter selects, read after `j + 1` steps of the loop; the
      context is left with the list the last step produced. */
  lemma EncryptByte(ctx: Ctx, msg: Message, key: seq<char>, nonce: seq<char>, j: nat)
    requires Setup(ctx, key, nonce).Ok? && MessageBytes(msg).Some? && j < Length(msg)
    ensures var e := Encrypt(ctx, msg, key, nonce).value;
            var ps := MessageBytes(msg).value;
            var s := SetupState(ctx, key, nonce);
            && e.text[j] == XorByte(ps[j], LowByte(Advance(ctx.counter, s, j + 1)[Index(ctx.counter, s)]))
            && e.ctx.state == Advance(ctx.counter, s, |ps|)
  {
    var ps := MessageBytes(msg).value;
    var s := SetupState(ctx, key, nonce);
    KeystreamAt(ctx.counter, s, |ps|, j);
    assert Index(ctx.counter, Advance(ctx.counter, s, j + 1)) == Index(ctx.counter, s);
  }

  /** Decrypting the ciphertext with the context encryption left behind and
      the same key and nonce gives back the message bytes (the `ord` of each
      character of a text), and leaves the context as encryption left it. */
  lemma EncryptDecrypt(ctx: Ctx, msg: Message, key: seq<char>, nonce: seq<char>)
    requires Setup(ctx, key, nonce).Ok? && MessageBytes(msg).Some?
    ensures var e := Encrypt(ctx, msg, key, nonce).value;
            Decrypt(e.ctx, Bytes(e.text), key, nonce) == Ok(Encrypted(e.ctx, MessageBytes(msg).value))
  {
    var e := Encrypt(ctx, msg, key, nonce).value;
    var ps := MessageBytes(msg).value;
    SetupForgets(e.ctx, ctx, key, nonce);
    var s := SetupState(ctx, key, nonce);
    var c := Setup(ctx, key, nonce).value.counter;
    XorBytesInvolution(ps, Keystream(c, s, |ps|));
  }

  /** With the counter selecting word 0, as the context's initial counter 0
      always does, every key byte is even: the low bit of each ciphertext
      byte is the low bit of its message byte. */
  lemma LowBitLeaks(ctx: Ctx, msg: Message, key: seq<char>, nonce: seq<char>)
    requires Setup(ctx, key, nonce).Ok? && MessageBytes(msg).Some?
    requires (ctx.counter as int) % |ctx.state| == 0
    ensures var out := Encrypt(ctx, msg, key, nonce).value.text;
            var ps := MessageBytes(msg).value;
            forall j :: 0 <= j < |ps| ==> out[j] & 1 == ps[j] & 1
  {
    var ps := MessageBytes(msg).value;
    var s := SetupState(ctx, key, nonce);
    KeystreamEven(ctx.counter, s, |ps|);
  }

  /** With the counter selecting any other word, the block function never
      runs and every message byte is XORed with the same key byte: that word
      as setup left it, modulo 256. */
  lemma ConstantKeyByte(ctx: Ctx, msg: Message, key: seq<char>, nonce: seq<char>)
    requires Setup(ctx, key, nonce).Ok? && MessageBytes(msg).Some?
    requires (ctx.counter as int) % |ctx.state| != 0
    ensures var e := Encrypt(ctx, msg, key, nonce).value;
            var ps := MessageBytes(msg).value;
            var s := Setup(ctx, key, nonce).value.state;
            && e.ctx == Setup(ctx, key, nonce).value
            && forall j :: 0 <= j < |ps| ==> e.text[j] == XorByte(ps[j], LowByte(s[(ctx.counter as int) % |s|]))
  {
    var ps := MessageBytes(msg).value;
    var s := SetupState(ctx, key, nonce);
    KeystreamIdle(ctx.counter, s, |ps|);
  }

  /** The driver's context: a list of 32 zeros, counter 0, nonce 0. */
  const DriverContext: Ctx := Ctx(seq(2 * StateSize, _ => 0), 0, 0)

  /** The run of the driver: with 64 hexadecimal characters of key and of
      nonce text and a plaintext of characters below 256, encryption
      succeeds, decryption with the context encryption left behind gives back
      the bytes of the plaintext, and the low bit of every ciphertext byte is
      that of its plaintext byte. */
  lemma DriverRoundTrip(key: seq<char>, nonce: seq<char>, plaintext: seq<char>)
    requires AllHex(key) && |key| == 64 && AllHex(nonce) && |nonce| == 64
    requires forall j :: 0 <= j < |plaintext| ==> plaintext[j] as int < 256
    ensures Encrypt(DriverContext, Text(plaintext), key, nonce).Ok?
    ensures var e := Encrypt(DriverContext, Text(plaintext), key, nonce).value;
            var d := Decrypt(e.ctx, Bytes(e.text), key, nonce);
            && d.Ok?
            && |d.value.text| == |plaintext|
            && (forall j :: 0 <= j < |plaintext| ==> d.value.text[j] == CharByte(plaintext[j]))
            && (forall j :: 0 <= j < |plaintext| ==> e.text[j] & 1 == CharByte(plaintext[j]) & 1)
  {
    SetupAccepts(DriverContext, key, nonce);
    EncryptDecrypt(DriverContext, Text(plaintext), key, nonce);
    LowBitLeaks(DriverContext, Text(plaintext), key, nonce);
  }
}
