/**
AES-256 on one block, as used for passphrase-protected keys.

The key schedule is rewritten in place: encryption expands it between rounds, and
decryption expands it to the end and then takes it back, round by round.  Decryption is
proved to undo encryption for every key and block.
*/
module Aes {

  // ------------------------------------------------------------------ bytes

  /** The row of a table, chosen by the high half of `x`. */
  function Row(x: bv8, v0: bv128, v1: bv128, v2: bv128, v3: bv128, v4: bv128, v5: bv128, v6: bv128, v7: bv128,
               v8: bv128, v9: bv128, va: bv128, vb: bv128, vc: bv128, vd: bv128, ve: bv128, vf: bv128): bv128
  {
    if x & 0x80 == 0 then
      if x & 0x40 == 0 then
        if x & 0x20 == 0 then
          if x & 0x10 == 0 then v0 else v1
        else
          if x & 0x10 == 0 then v2 else v3
      else
        if x & 0x20 == 0 then
          if x & 0x10 == 0 then v4 else v5
        else
          if x & 0x10 == 0 then v6 else v7
    else
      if x & 0x40 == 0 then
        if x & 0x20 == 0 then
          if x & 0x10 == 0 then v8 else v9
        else
          if x & 0x10 == 0 then va else vb
      else
        if x & 0x20 == 0 then
          if x & 0x10 == 0 then vc else vd
        else
          if x & 0x10 == 0 then ve else vf
  }

  /** The byte of a row, chosen by the low half of `x`. */
  function Entry(row: bv128, x: bv8): bv8 {
    var half := if x & 8 == 0 then row >> 64 else row & 0xffff_ffff_ffff_ffff;
    var quarter := if x & 4 == 0 then half >> 32 else half & 0xffff_ffff;
    var pair := if x & 2 == 0 then quarter >> 16 else quarter & 0xffff;
    (if x & 1 == 0 then pair >> 8 else pair & 0xff) as bv8
  }

  function Sbox(x: bv8): bv8 {
    Entry(Row(x,
      0x637c777bf26b6fc53001672bfed7ab76, 0xca82c97dfa5947f0add4a2af9ca472c0,
      0xb7fd9326363ff7cc34a5e5f171d83115, 0x04c723c31896059a071280e2eb27b275,
      0x09832c1a1b6e5aa0523bd6b329e32f84, 0x53d100ed20fcb15b6acbbe394a4c58cf,
      0xd0efaafb434d338545f9027f503c9fa8, 0x51a3408f929d38f5bcb6da2110fff3d2,
      0xcd0c13ec5f974417c4a77e3d645d1973, 0x60814fdc222a908846eeb814de5e0bdb,
      0xe0323a0a4906245cc2d3ac629195e479, 0xe7c8376d8dd54ea96c56f4ea657aae08,
      0xba78252e1ca6b4c6e8dd741f4bbd8b8a, 0x703eb5664803f60e613557b986c11d9e,
      0xe1f8981169d98e949b1e87e9ce5528df, 0x8ca1890dbfe6426841992d0fb054bb16), x)
  }

  function SboxInverse(x: bv8): bv8 {
    Entry(Row(x,
      0x52096ad53036a538bf40a39e81f3d7fb, 0x7ce339829b2fff87348e4344c4dee9cb,
      0x547b9432a6c2233dee4c950b42fac34e, 0x082ea16628d924b2765ba2496d8bd125,
      0x72f8f66486689816d4a45ccc5d65b692, 0x6c704850fdedb9da5e154657a78d9d84,
      0x90d8ab008cbcd30af7e45805b8b34506, 0xd02c1e8fca3f0f02c1afbd0301138a6b,
      0x3a9111414f67dcea97f2cfcef0b4e673, 0x96ac7422e7ad3585e2f937e81c75df6e,
      0x47f11a711d29c5896fb7620eaa18be1b, 0xfc563e4bc6d279209adbc0fe78cd5af4,
      0x1fdda8338807c731b11210592780ec5f, 0x60517fa919b54a0d2de57a9f93c99cef,
      0xa0e03b4dae2af5b0c8ebbb3c83539961, 0x172b047eba77d626e169146355210c7d), x)
  }

  /** The second table inverts the first. */
  lemma SboxInverts(x: bv8)
    ensures SboxInverse(Sbox(x)) == x
  {
  }

  /** And the first inverts the second. */
  lemma SboxRestores(x: bv8)
    ensures Sbox(SboxInverse(x)) == x
  {
  }

  /** Addition in the field of bytes. */
  function Plus(x: bv8, y: bv8): bv8 {
    x ^ y
  }

  /** Multiplication by x in the field of bytes. */
  function Xt(x: bv8): bv8 {
    (x << 1) ^ (((x >> 7) & 1) * 0x1b)
  }

  /** Division by x. */
  function XtInverse(x: bv8): bv8 {
    (x >> 1) ^ ((x & 1) * 0x8d)
  }

  lemma XtInverts(x: bv8)
    ensures XtInverse(Xt(x)) == x
  {
  }

  lemma XtLinear(x: bv8, y: bv8)
    ensures Xt(Plus(x, y)) == Plus(Xt(x), Xt(y))
  {
  }

  /** `x` if the bit of `y` is set. */
  function BitTimes(x: bv8, y: bv8, bit: bv8): bv8 {
    if y & bit == 0 then 0 else x
  }

  /** Multiplication in the field of bytes: x, 2x, 4x, ... summed over the bits of `y`. */
  function Mul(x: bv8, y: bv8): bv8 {
    var x2 := Xt(x);
    var x4 := Xt(x2);
    var x8 := Xt(x4);
    var x10 := Xt(x8);
    var x20 := Xt(x10);
    var x40 := Xt(x20);
    BitTimes(x, y, 1) ^ BitTimes(x2, y, 2) ^ BitTimes(x4, y, 4) ^ BitTimes(x8, y, 8) ^
    BitTimes(x10, y, 0x10) ^ BitTimes(x20, y, 0x20) ^ BitTimes(x40, y, 0x40) ^ BitTimes(Xt(x40), y, 0x80)
  }

  /** The affine map of section 5.1.1 of FIPS 197: a byte summed with four of its rotations and a constant. */
  function Affine(x: bv8): bv8 {
    x ^ ((x << 1) | (x >> 7)) ^ ((x << 2) | (x >> 6)) ^ ((x << 3) | (x >> 5)) ^ ((x << 4) | (x >> 4)) ^ 0x63
  }

  function AffineInverse(x: bv8): bv8 {
    ((x << 1) | (x >> 7)) ^ ((x << 3) | (x >> 5)) ^ ((x << 6) | (x >> 2)) ^ 0x05
  }

  lemma AffineInverts(x: bv8)
    ensures Affine(AffineInverse(x)) == x
  {
  }

  lemma LowerInverses(x: bv8)
    requires x < 0x80
    ensures x != 0 ==> Mul(AffineInverse(Sbox(x)), x) == 1
  {
  }

  lemma UpperInverses(x: bv8)
    requires x >= 0x80
    ensures Mul(AffineInverse(Sbox(x)), x) == 1
  {
  }

  /** The table is the affine map of the inverse in the field, zero being its own. */
  lemma SboxIsAffineOfInverse(x: bv8) returns (y: bv8)
    ensures if x == 0 then y == 0 else Mul(y, x) == 1
    ensures Sbox(x) == Affine(y)
  {
    assert AffineInverse(Sbox(0)) == 0;
    hide Sbox, Mul, Affine, AffineInverse;
    y := AffineInverse(Sbox(x));
    AffineInverts(Sbox(x));
    if x < 0x80 {
      LowerInverses(x);
    } else {
      UpperInverses(x);
    }
  }

  lemma PlusTwice(x: bv8, y: bv8)
    ensures Plus(Plus(x, y), y) == x
  {
  }

  lemma PlusSwap(x: bv8, y: bv8)
    ensures Plus(x, y) == Plus(y, x)
  {
  }

  lemma PlusVia(x: bv8, y: bv8, z: bv8)
    ensures Plus(Plus(x, y), Plus(y, z)) == Plus(x, z)
  {
  }

  lemma XtVia(x: bv8, y: bv8, z: bv8)
    ensures Plus(Xt(Plus(x, y)), Xt(Plus(y, z))) == Xt(Plus(x, z))
  {
    hide Xt, Plus;
    XtLinear(Plus(x, y), Plus(y, z));
    PlusVia(x, y, z);
  }

  // ---------------------------------------------------------------- columns

  /** Four bytes of a block or key: a 32-bit word seen as bytes. */
  datatype Column = Column(a: bv8, b: bv8, c: bv8, d: bv8)

  function Xor(p: Column, q: Column): Column {
    Column(Plus(p.a, q.a), Plus(p.b, q.b), Plus(p.c, q.c), Plus(p.d, q.d))
  }

  lemma XorTwice(p: Column, q: Column)
    ensures Xor(Xor(p, q), q) == p
  {
    hide Plus;
    PlusTwice(p.a, q.a); PlusTwice(p.b, q.b); PlusTwice(p.c, q.c); PlusTwice(p.d, q.d);
  }

  function Sub(p: Column): Column {
    Column(Sbox(p.a), Sbox(p.b), Sbox(p.c), Sbox(p.d))
  }

  function Unsub(p: Column): Column {
    Column(SboxInverse(p.a), SboxInverse(p.b), SboxInverse(p.c), SboxInverse(p.d))
  }

  lemma UnsubSub(p: Column)
    ensures Unsub(Sub(p)) == p
  {
    hide Sbox, SboxInverse;
    SboxInverts(p.a); SboxInverts(p.b); SboxInverts(p.c); SboxInverts(p.d);
  }

  lemma SubUnsub(p: Column)
    ensures Sub(Unsub(p)) == p
  {
    hide Sbox, SboxInverse;
    SboxRestores(p.a); SboxRestores(p.b); SboxRestores(p.c); SboxRestores(p.d);
  }

  function Sum(p: Column): bv8 {
    Plus(Plus(p.a, p.b), Plus(p.c, p.d))
  }

  /** Byte `x` with its neighbour `y` and the sum `e`. */
  function MixByte(x: bv8, y: bv8, e: bv8): bv8 {
    Plus(Plus(x, e), Xt(Plus(x, y)))
  }

  function Mix(p: Column): Column {
    var e := Sum(p);
    Column(MixByte(p.a, p.b, e), MixByte(p.b, p.c, e), MixByte(p.c, p.d, e), MixByte(p.d, p.a, e))
  }

  /** 2x + 3y + z + w in the field of bytes: a row of the matrix of section 5.1.3 of FIPS 197. */
  function MatrixRow(x: bv8, y: bv8, z: bv8, w: bv8): bv8 {
    Plus(Plus(Xt(x), Plus(Xt(y), y)), Plus(z, w))
  }

  /** Mixing is multiplication by that matrix. */
  lemma MixIsMatrix(p: Column)
    ensures Mix(p) == Column(MatrixRow(p.a, p.b, p.c, p.d), MatrixRow(p.b, p.c, p.d, p.a),
                             MatrixRow(p.c, p.d, p.a, p.b), MatrixRow(p.d, p.a, p.b, p.c))
  {
    hide Plus, Xt, MixByte, MatrixRow;
    RotateSum(p.a, p.b, p.c, p.d);
    RotateSum(p.b, p.c, p.d, p.a);
    RotateSum(p.c, p.d, p.a, p.b);
    MixByteIsRow(p.a, p.b, p.c, p.d);
    MixByteIsRow(p.b, p.c, p.d, p.a);
    MixByteIsRow(p.c, p.d, p.a, p.b);
    MixByteIsRow(p.d, p.a, p.b, p.c);
  }

  lemma MixByteIsRow(x: bv8, y: bv8, z: bv8, w: bv8)
    ensures MixByte(x, y, Plus(Plus(x, y), Plus(z, w))) == MatrixRow(x, y, z, w)
  {
    hide Plus, Xt;
    XtLinear(x, y);
    TakeOutOwn(x, y, Plus(z, w));
    MoveSums(Xt(x), Xt(y), y, Plus(z, w));
  }

  lemma TakeOutOwn(x: bv8, y: bv8, t: bv8)
    ensures Plus(x, Plus(Plus(x, y), t)) == Plus(y, t)
  {
    assert x ^ ((x ^ y) ^ t) == y ^ t;
  }

  lemma MoveSums(u: bv8, v: bv8, y: bv8, t: bv8)
    ensures Plus(Plus(y, t), Plus(u, v)) == Plus(Plus(u, Plus(v, y)), t)
  {
    assert (y ^ t) ^ (u ^ v) == (u ^ (v ^ y)) ^ t;
  }

  function Unmix(p: Column): Column {
    var e := Sum(p);
    var h := Xt(e);
    var f := Plus(e, Xt(Xt(Plus(Plus(h, p.a), p.c))));
    var g := Plus(e, Xt(Xt(Plus(Plus(h, p.b), p.d))));
    Column(MixByte(p.a, p.b, f), MixByte(p.b, p.c, g), MixByte(p.c, p.d, f), MixByte(p.d, p.a, g))
  }

  lemma CancelCommon(x: bv8, y: bv8, e: bv8, u: bv8, v: bv8)
    ensures Plus(Plus(Plus(x, e), u), Plus(Plus(y, e), v)) == Plus(Plus(x, y), Plus(u, v))
  {
    hide Plus;
    PlusMove(x, e, u);
    PlusMove(y, e, v);
    CancelPairs(Plus(x, u), Plus(y, v), e);
    PlusInterchange(x, u, y, v);
  }

  lemma PlusMove(x: bv8, y: bv8, z: bv8)
    ensures Plus(Plus(x, y), z) == Plus(Plus(x, z), y)
  {
  }

  lemma PlusInterchange(x: bv8, u: bv8, y: bv8, v: bv8)
    ensures Plus(Plus(x, u), Plus(y, v)) == Plus(Plus(x, y), Plus(u, v))
  {
    assert (x ^ u) ^ (y ^ v) == (x ^ y) ^ (u ^ v);
  }

  lemma CancelPairs(x: bv8, y: bv8, t: bv8)
    ensures Plus(Plus(x, t), Plus(y, t)) == Plus(x, y)
  {
  }

  lemma CancelDoubled(x: bv8, z: bv8, e: bv8, u: bv8, v: bv8)
    ensures Plus(Plus(Plus(u, v), Plus(Plus(x, e), u)), Plus(Plus(z, e), v)) == Plus(x, z)
  {
  }

  lemma CancelAll(x: bv8, e: bv8, u: bv8, t: bv8)
    ensures Plus(Plus(Plus(Plus(x, e), u), Plus(e, t)), Plus(u, t)) == x
  {
    assert (((x ^ e) ^ u) ^ (e ^ t)) ^ (u ^ t) == x;
  }

  lemma RotateSum(x: bv8, y: bv8, z: bv8, w: bv8)
    ensures Plus(Plus(x, y), Plus(z, w)) == Plus(Plus(y, z), Plus(w, x))
  {
    assert (x ^ y) ^ (z ^ w) == (y ^ z) ^ (w ^ x);
  }

  /** Mixing changes the sum of neighbours x and y by the doubled sum of x and z. */
  lemma MixNeighbours(x: bv8, y: bv8, z: bv8, e: bv8)
    ensures Plus(MixByte(x, y, e), MixByte(y, z, e)) == Plus(Plus(x, y), Xt(Plus(x, z)))
  {
    hide Plus, Xt;
    CancelCommon(x, y, e, Xt(Plus(x, y)), Xt(Plus(y, z)));
    XtVia(x, y, z);
  }

  /** Mixing keeps the sum of a column. */
  lemma MixKeepsSum(p: Column)
    ensures Sum(Mix(p)) == Sum(p)
  {
    hide Plus, Xt, MixByte;
    var e := Sum(p);
    MixNeighbours(p.a, p.b, p.c, e);
    MixNeighbours(p.c, p.d, p.a, e);
    PlusSwap(p.a, p.c);
    CancelPairs(Plus(p.a, p.b), Plus(p.c, p.d), Xt(Plus(p.a, p.c)));
  }

  /** Opposite bytes keep their sum once the doubled sum of the column is added. */
  lemma MixOpposites(x: bv8, y: bv8, z: bv8, w: bv8)
    ensures var e := Plus(Plus(x, y), Plus(z, w));
            Plus(Plus(Xt(e), MixByte(x, y, e)), MixByte(z, w, e)) == Plus(x, z)
  {
    hide Plus, Xt;
    var e := Plus(Plus(x, y), Plus(z, w));
    XtLinear(Plus(x, y), Plus(z, w));
    CancelDoubled(x, z, e, Xt(Plus(x, y)), Xt(Plus(z, w)));
  }

  lemma UnmixByte(x: bv8, y: bv8, z: bv8, e: bv8)
    ensures MixByte(MixByte(x, y, e), MixByte(y, z, e), Plus(e, Xt(Xt(Plus(x, z))))) == x
  {
    hide Plus, Xt;
    MixNeighbours(x, y, z, e);
    XtLinear(Plus(x, y), Xt(Plus(x, z)));
    CancelAll(x, e, Xt(Plus(x, y)), Xt(Xt(Plus(x, z))));
  }

  /** Unmixing undoes mixing. */
  lemma UnmixMix(p: Column)
    ensures Unmix(Mix(p)) == p
  {
    hide Plus, Xt, MixByte;
    MixKeepsSum(p);
    MixOpposites(p.a, p.b, p.c, p.d);
    RotateSum(p.a, p.b, p.c, p.d);
    MixOpposites(p.b, p.c, p.d, p.a);
    PlusSwap(p.a, p.c);
    PlusSwap(p.b, p.d);
    var e := Sum(p);
    UnmixByte(p.a, p.b, p.c, e); UnmixByte(p.b, p.c, p.d, e); UnmixByte(p.c, p.d, p.a, e); UnmixByte(p.d, p.a, p.b, e);
  }

  /** Mixing twice: each byte takes four times its sum with the opposite byte. */
  function MixedTwice(p: Column): Column {
    var u, v := Xt(Xt(Plus(p.a, p.c))), Xt(Xt(Plus(p.b, p.d)));
    Column(Plus(p.a, u), Plus(p.b, v), Plus(p.c, u), Plus(p.d, v))
  }

  lemma MixByteTwice(x: bv8, y: bv8, z: bv8, e: bv8)
    ensures MixByte(MixByte(x, y, e), MixByte(y, z, e), e) == Plus(x, Xt(Xt(Plus(x, z))))
  {
    hide Plus, Xt;
    var u, t := Xt(Plus(x, y)), Xt(Xt(Plus(x, z)));
    MixNeighbours(x, y, z, e);
    XtLinear(Plus(x, y), Xt(Plus(x, z)));
    CancelTwice(x, e, u, t);
  }

  lemma CancelTwice(x: bv8, e: bv8, u: bv8, t: bv8)
    ensures Plus(Plus(Plus(Plus(x, e), u), e), Plus(u, t)) == Plus(x, t)
  {
    assert (((x ^ e) ^ u) ^ e) ^ (u ^ t) == x ^ t;
  }

  lemma MixMix(p: Column)
    ensures Mix(Mix(p)) == MixedTwice(p)
  {
    hide Plus, Xt, MixByte;
    MixKeepsSum(p);
    PlusSwap(p.a, p.c);
    PlusSwap(p.b, p.d);
    var e := Sum(p);
    MixByteTwice(p.a, p.b, p.c, e); MixByteTwice(p.b, p.c, p.d, e);
    MixByteTwice(p.c, p.d, p.a, e); MixByteTwice(p.d, p.a, p.b, e);
  }

  /** Mixing four times is the identity, so unmixing can also be undone by mixing. */
  lemma MixedTwiceTwice(p: Column)
    ensures MixedTwice(MixedTwice(p)) == p
  {
    hide Plus, Xt;
    var u, v := Xt(Xt(Plus(p.a, p.c))), Xt(Xt(Plus(p.b, p.d)));
    CancelPairs(p.a, p.c, u);
    CancelPairs(p.b, p.d, v);
    PlusTwice(p.a, u); PlusTwice(p.b, v); PlusTwice(p.c, u); PlusTwice(p.d, v);
  }

  /** Mixing undoes unmixing. */
  lemma MixUnmix(p: Column)
    ensures Mix(Unmix(p)) == p
  {
    hide Mix, Unmix, MixedTwice;
    var q := Mix(Mix(Mix(p)));
    MixMix(p);
    MixMix(Mix(Mix(p)));
    MixedTwiceTwice(p);
    assert Mix(q) == p;
    UnmixMix(q);
  }

  // ------------------------------------------------------------------ blocks

  /** A block of four columns. */
  datatype Block = Block(c0: Column, c1: Column, c2: Column, c3: Column)

  function AddKey(s: Block, k: Block): Block {
    Block(Xor(s.c0, k.c0), Xor(s.c1, k.c1), Xor(s.c2, k.c2), Xor(s.c3, k.c3))
  }

  function SubBlock(s: Block): Block {
    Block(Sub(s.c0), Sub(s.c1), Sub(s.c2), Sub(s.c3))
  }

  function UnsubBlock(s: Block): Block {
    Block(Unsub(s.c0), Unsub(s.c1), Unsub(s.c2), Unsub(s.c3))
  }

  /** Row r of the block turns left by r columns. */
  function ShiftRows(s: Block): Block {
    Block(Column(s.c0.a, s.c1.b, s.c2.c, s.c3.d), Column(s.c1.a, s.c2.b, s.c3.c, s.c0.d),
          Column(s.c2.a, s.c3.b, s.c0.c, s.c1.d), Column(s.c3.a, s.c0.b, s.c1.c, s.c2.d))
  }

  function UnshiftRows(s: Block): Block {
    Block(Column(s.c0.a, s.c3.b, s.c2.c, s.c1.d), Column(s.c1.a, s.c0.b, s.c3.c, s.c2.d),
          Column(s.c2.a, s.c1.b, s.c0.c, s.c3.d), Column(s.c3.a, s.c2.b, s.c1.c, s.c0.d))
  }

  function MixBlock(s: Block): Block {
    Block(Mix(s.c0), Mix(s.c1), Mix(s.c2), Mix(s.c3))
  }

  function UnmixBlock(s: Block): Block {
    Block(Unmix(s.c0), Unmix(s.c1), Unmix(s.c2), Unmix(s.c3))
  }

  lemma AddKeyTwice(s: Block, k: Block)
    ensures AddKey(AddKey(s, k), k) == s
  {
    hide Xor;
    XorTwice(s.c0, k.c0); XorTwice(s.c1, k.c1); XorTwice(s.c2, k.c2); XorTwice(s.c3, k.c3);
  }

  /** Round `i` after its key has been added; the last one does not mix. */
  function Round(s: Block, i: nat): Block {
    if i < 13 then MixBlock(ShiftRows(SubBlock(s))) else ShiftRows(SubBlock(s))
  }

  /** Undoing a round, mixing first unless it was the last. */
  function Unround(s: Block, first: bool): Block {
    UnsubBlock(UnshiftRows(if first then s else UnmixBlock(s)))
  }

  lemma UnroundRound(s: Block, i: nat)
    requires i < 14
    ensures Unround(Round(s, i), i == 13) == s
  {
    hide Mix, Unmix, Sub, Unsub;
    var t := ShiftRows(SubBlock(s));
    UnmixMix(t.c0); UnmixMix(t.c1); UnmixMix(t.c2); UnmixMix(t.c3);
    UnsubSub(s.c0); UnsubSub(s.c1); UnsubSub(s.c2); UnsubSub(s.c3);
  }

  lemma RoundUnround(s: Block, i: nat)
    requires i < 14
    ensures Round(Unround(s, i == 13), i) == s
  {
    hide Mix, Unmix, Sub, Unsub;
    var t := if i == 13 then s else UnmixBlock(s);
    var u := UnshiftRows(t);
    SubUnsub(u.c0); SubUnsub(u.c1); SubUnsub(u.c2); SubUnsub(u.c3);
    MixUnmix(s.c0); MixUnmix(s.c1); MixUnmix(s.c2); MixUnmix(s.c3);
  }

  // ---------------------------------------------------------- the key schedule

  /** The schedule's state: two halves of the key and the round constant. */
  datatype Schedule = Schedule(lo: Block, hi: Block, r: bv8)

  /** The word that starts an expansion: the last column turned, substituted, with the constant. */
  function Turned(p: Column, r: bv8): Column {
    Column(Plus(Sbox(p.b), r), Sbox(p.c), Sbox(p.d), Sbox(p.a))
  }

  /** Each column of a half is added to the next. */
  function Chain(k: Block, first: Column): Block {
    var c0 := Xor(k.c0, first);
    var c1 := Xor(k.c1, c0);
    var c2 := Xor(k.c2, c1);
    Block(c0, c1, c2, Xor(k.c3, c2))
  }

  function Unchain(k: Block, first: Column): Block {
    Block(Xor(k.c0, first), Xor(k.c1, k.c0), Xor(k.c2, k.c1), Xor(k.c3, k.c2))
  }

  lemma UnchainChain(k: Block, first: Column)
    ensures Unchain(Chain(k, first), first) == k
  {
    hide Xor;
    var n := Chain(k, first);
    XorTwice(k.c0, first); XorTwice(k.c1, n.c0); XorTwice(k.c2, n.c1); XorTwice(k.c3, n.c2);
  }

  function Expand(k: Schedule): Schedule {
    var lo := Chain(k.lo, Turned(k.hi.c3, k.r));
    Schedule(lo, Chain(k.hi, Sub(lo.c3)), Xt(k.r))
  }

  function Unexpand(k: Schedule): Schedule {
    var hi, r := Unchain(k.hi, Sub(k.lo.c3)), XtInverse(k.r);
    Schedule(Unchain(k.lo, Turned(hi.c3, r)), hi, r)
  }

  /** Taking an expansion back. */
  lemma UnexpandExpand(k: Schedule)
    ensures Unexpand(Expand(k)) == k
  {
    hide Chain, Unchain, Turned, Sub, Xt, XtInverse;
    var n := Expand(k);
    XtInverts(k.r);
    UnchainChain(k.hi, Sub(n.lo.c3));
    UnchainChain(k.lo, Turned(k.hi.c3, k.r));
  }

  function Expanded(key: Schedule, n: nat): Schedule {
    if n == 0 then key else Expand(Expanded(key, n - 1))
  }

  /** The schedule before anything is expanded. */
  function Fresh(lo: Block, hi: Block): Schedule {
    Schedule(lo, hi, 1)
  }

  /** The half that round `i` adds. */
  function RoundKey(key: Schedule, i: nat): Block {
    if i % 2 == 0 then Expanded(key, i / 2).lo else Expanded(key, i / 2).hi
  }

  // ------------------------------------------------------- the whole transformation

  /** The block before round `i` adds its key. */
  function Before(key: Schedule, p: Block, i: nat): Block {
    if i == 0 then p else Round(AddKey(Before(key, p, i - 1), RoundKey(key, i - 1)), i - 1)
  }

  function Encrypted(key: Schedule, p: Block): Block {
    AddKey(Before(key, p, 14), RoundKey(key, 14))
  }

  /** The block before turn `i` of decryption. */
  function Undone(key: Schedule, c: Block, i: nat): Block
    requires i <= 14
  {
    if i == 0 then c else Unround(AddKey(Undone(key, c, i - 1), RoundKey(key, 15 - i)), i == 1)
  }

  function Decrypted(key: Schedule, c: Block): Block {
    AddKey(Undone(key, c, 14), RoundKey(key, 0))
  }

  lemma BeforeStep(key: Schedule, p: Block, i: nat)
    ensures Before(key, p, 0) == p
    ensures Before(key, p, i + 1) == Round(AddKey(Before(key, p, i), RoundKey(key, i)), i)
  {
    hide RoundKey, AddKey, Round;
  }

  lemma UndoneStep(key: Schedule, c: Block, i: nat)
    requires i < 14
    ensures Undone(key, c, 0) == c
    ensures Undone(key, c, i + 1) == Unround(AddKey(Undone(key, c, i), RoundKey(key, 14 - i)), i == 0)
  {
    hide RoundKey, AddKey, Unround;
  }

  /** Turn `i` of decryption meets the block as round 14 - i of encryption left it, its key added. */
  lemma {:induction false} UndoneMeets(key: Schedule, p: Block, i: nat)
    requires i <= 14
    ensures Undone(key, Encrypted(key, p), i) == AddKey(Before(key, p, 14 - i), RoundKey(key, 14 - i))
  {
    hide RoundKey, AddKey, Round, Unround, Before, Undone;
    if i == 0 {
      UndoneStep(key, Encrypted(key, p), 0);
    } else {
      hide Encrypted;
      UndoneMeets(key, p, i - 1);
      UndoneStep(key, Encrypted(key, p), i - 1);
      BeforeStep(key, p, 14 - i);
      AddKeyTwice(Before(key, p, 15 - i), RoundKey(key, 15 - i));
      UnroundRound(AddKey(Before(key, p, 14 - i), RoundKey(key, 14 - i)), 14 - i);
    }
  }

  /** Decryption undoes encryption, for every key and block. */
  lemma DecryptEncrypted(key: Schedule, p: Block)
    ensures Decrypted(key, Encrypted(key, p)) == p
  {
    hide RoundKey, AddKey, Round, Unround, Undone, Before, Encrypted;
    UndoneMeets(key, p, 14);
    BeforeStep(key, p, 0);
    AddKeyTwice(p, RoundKey(key, 0));
  }

  /** Round i of encrypting a decrypted block meets what turn 14 - i of decryption left, its key taken off. */
  lemma {:induction false} BeforeMeets(key: Schedule, c: Block, i: nat)
    requires i <= 14
    ensures Before(key, Decrypted(key, c), i) == AddKey(Undone(key, c, 14 - i), RoundKey(key, i))
  {
    hide RoundKey, AddKey, Round, Unround, Before, Undone;
    if i == 0 {
      BeforeStep(key, Decrypted(key, c), 0);
    } else {
      hide Decrypted;
      BeforeMeets(key, c, i - 1);
      BeforeStep(key, Decrypted(key, c), i - 1);
      UndoneStep(key, c, 14 - i);
      AddKeyTwice(Undone(key, c, 15 - i), RoundKey(key, i - 1));
      RoundUnround(AddKey(Undone(key, c, 14 - i), RoundKey(key, i)), i - 1);
    }
  }

  /** Encryption undoes decryption too, so both are one-to-one for every key. */
  lemma EncryptDecrypted(key: Schedule, c: Block)
    ensures Encrypted(key, Decrypted(key, c)) == c
  {
    hide RoundKey, AddKey, Round, Unround, Undone, Before, Decrypted;
    BeforeMeets(key, c, 14);
    UndoneStep(key, c, 0);
    AddKeyTwice(c, RoundKey(key, 14));
  }

  // --------------------------------------------------- the schedule word by word

  /** The round constants: powers of x. */
  function Rcon(n: nat): bv8 {
    if n == 0 then 1 else Xt(Rcon(n - 1))
  }

  /** Word i of the key expansion of section 5.2 of FIPS 197 for eight key words. */
  function Word(lo: Block, hi: Block, i: nat): Column {
    if i < 8 then
      if i == 0 then lo.c0 else if i == 1 then lo.c1 else if i == 2 then lo.c2 else if i == 3 then lo.c3
      else if i == 4 then hi.c0 else if i == 5 then hi.c1 else if i == 6 then hi.c2 else hi.c3
    else
      var last := Word(lo, hi, i - 1);
      var temp := if i % 8 == 0 then Turned(last, Rcon(i / 8 - 1)) else if i % 8 == 4 then Sub(last) else last;
      Xor(Word(lo, hi, i - 8), temp)
  }

  function Words4(lo: Block, hi: Block, i: nat): Block {
    Block(Word(lo, hi, i), Word(lo, hi, i + 1), Word(lo, hi, i + 2), Word(lo, hi, i + 3))
  }

  lemma WordStep(lo: Block, hi: Block, i: nat)
    requires i >= 8
    ensures Word(lo, hi, i) ==
      Xor(Word(lo, hi, i - 8),
          if i % 8 == 0 then Turned(Word(lo, hi, i - 1), Rcon(i / 8 - 1))
          else if i % 8 == 4 then Sub(Word(lo, hi, i - 1)) else Word(lo, hi, i - 1))
  {
    hide Xor, Turned, Sub;
  }

  lemma FirstWords(lo: Block, hi: Block)
    ensures Words4(lo, hi, 0) == lo && Words4(lo, hi, 4) == hi
  {
    hide Xor, Turned, Sub;
  }

  /** One in-place expansion computes the next eight words. */
  lemma ExpandIsWords(lo: Block, hi: Block, n: nat)
    ensures Expand(Schedule(Words4(lo, hi, 8 * n), Words4(lo, hi, 8 * n + 4), Rcon(n))) ==
            Schedule(Words4(lo, hi, 8 * n + 8), Words4(lo, hi, 8 * n + 12), Rcon(n + 1))
  {
    hide Xor, Turned, Sub, Word, Xt;
    var m := 8 * n + 8;
    assert m % 8 == 0 && m / 8 == n + 1;
    WordStep(lo, hi, m); WordStep(lo, hi, m + 1); WordStep(lo, hi, m + 2); WordStep(lo, hi, m + 3);
    WordStep(lo, hi, m + 4); WordStep(lo, hi, m + 5); WordStep(lo, hi, m + 6); WordStep(lo, hi, m + 7);
  }

  lemma {:induction false} ExpandedIsWords(lo: Block, hi: Block, n: nat)
    ensures Expanded(Fresh(lo, hi), n) == Schedule(Words4(lo, hi, 8 * n), Words4(lo, hi, 8 * n + 4), Rcon(n))
  {
    hide Expand, Words4;
    if n == 0 {
      FirstWords(lo, hi);
    } else {
      ExpandedIsWords(lo, hi, n - 1);
      ExpandIsWords(lo, hi, n - 1);
    }
  }

  /** Round i adds words 4i to 4i + 3 of the key expansion. */
  lemma RoundKeyIsWords(lo: Block, hi: Block, i: nat)
    ensures RoundKey(Fresh(lo, hi), i) == Words4(lo, hi, 4 * i)
  {
    hide Words4, Expanded;
    ExpandedIsWords(lo, hi, i / 2);
    assert 4 * i == 8 * (i / 2) + 4 * (i % 2);
  }

  // ------------------------------------------------------------- in-place steps

  /** Four columns of a buffer, from column `o`. */
  ghost function BlockAt(x: array<Column>, o: nat): Block
    requires o + 4 <= x.Length
    reads x
  {
    Block(x[o], x[o + 1], x[o + 2], x[o + 3])
  }

  method AddRoundKey(x: array<Column>, k: array<Column>, half: nat)
    requires x.Length == 4 && k.Length == 8 && half < 2 && x != k
    modifies x
    ensures BlockAt(x, 0) == AddKey(old(BlockAt(x, 0)), BlockAt(k, 4 * half))
  {
    hide Xor;
    for j := 0 to 4
      invariant forall n | 0 <= n < 4 :: x[n] == if n < j then Xor(old(x[n]), k[n + 4 * half]) else old(x[n])
    {
      x[j] := Xor(x[j], k[j + 4 * half]);
    }
  }

  method SubBytes(x: array<Column>)
    requires x.Length == 4
    modifies x
    ensures BlockAt(x, 0) == SubBlock(old(BlockAt(x, 0)))
  {
    hide Sub;
    for j := 0 to 4
      invariant forall n | 0 <= n < 4 :: x[n] == if n < j then Sub(old(x[n])) else old(x[n])
    {
      x[j] := Sub(x[j]);
    }
  }

  method UnsubBytes(x: array<Column>)
    requires x.Length == 4
    modifies x
    ensures BlockAt(x, 0) == UnsubBlock(old(BlockAt(x, 0)))
  {
    hide Unsub;
    for j := 0 to 4
      invariant forall n | 0 <= n < 4 :: x[n] == if n < j then Unsub(old(x[n])) else old(x[n])
    {
      x[j] := Unsub(x[j]);
    }
  }

  method ShiftRowsInPlace(x: array<Column>)
    requires x.Length == 4
    modifies x
    ensures BlockAt(x, 0) == ShiftRows(old(BlockAt(x, 0)))
  {
    var a := x[0].b;
    x[0] := x[0].(b := x[1].b);
    x[1] := x[1].(b := x[2].b);
    x[2] := x[2].(b := x[3].b);
    x[3] := x[3].(b := a);
    a := x[2].c;
    x[2] := x[2].(c := x[0].c);
    x[0] := x[0].(c := a);
    a := x[0].d;
    x[0] := x[0].(d := x[3].d);
    x[3] := x[3].(d := x[2].d);
    x[2] := x[2].(d := x[1].d);
    x[1] := x[1].(d := a);
    a := x[3].c;
    x[3] := x[3].(c := x[1].c);
    x[1] := x[1].(c := a);
  }

  method UnshiftRowsInPlace(x: array<Column>)
    requires x.Length == 4
    modifies x
    ensures BlockAt(x, 0) == UnshiftRows(old(BlockAt(x, 0)))
  {
    var a := x[0].b;
    x[0] := x[0].(b := x[3].b);
    x[3] := x[3].(b := x[2].b);
    x[2] := x[2].(b := x[1].b);
    x[1] := x[1].(b := a);
    a := x[0].c;
    x[0] := x[0].(c := x[2].c);
    x[2] := x[2].(c := a);
    a := x[0].d;
    x[0] := x[0].(d := x[1].d);
    x[1] := x[1].(d := x[2].d);
    x[2] := x[2].(d := x[3].d);
    x[3] := x[3].(d := a);
    a := x[1].c;
    x[1] := x[1].(c := x[3].c);
    x[3] := x[3].(c := a);
  }

  method MixColumns(x: array<Column>)
    requires x.Length == 4
    modifies x
    ensures BlockAt(x, 0) == MixBlock(old(BlockAt(x, 0)))
  {
    hide Mix;
    for j := 0 to 4
      invariant forall n | 0 <= n < 4 :: x[n] == if n < j then Mix(old(x[n])) else old(x[n])
    {
      x[j] := Mix(x[j]);
    }
  }

  method UnmixColumns(x: array<Column>)
    requires x.Length == 4
    modifies x
    ensures BlockAt(x, 0) == UnmixBlock(old(BlockAt(x, 0)))
  {
    hide Unmix;
    for j := 0 to 4
      invariant forall n | 0 <= n < 4 :: x[n] == if n < j then Unmix(old(x[n])) else old(x[n])
    {
      x[j] := Unmix(x[j]);
    }
  }

  /** The columns after `o` each take the one before, first to last. */
  method ChainInPlace(k: array<Column>, o: nat, first: Column)
    requires k.Length == 8 && o in {0, 4}
    modifies k
    ensures BlockAt(k, o) == Chain(old(BlockAt(k, o)), first)
    ensures BlockAt(k, 4 - o) == old(BlockAt(k, 4 - o))
  {
    hide Xor;
    k[o] := Xor(k[o], first);
    k[o + 1] := Xor(k[o + 1], k[o]);
    k[o + 2] := Xor(k[o + 2], k[o + 1]);
    k[o + 3] := Xor(k[o + 3], k[o + 2]);
  }

  /** The columns after `o` each give back the one before, last to first. */
  method UnchainInPlace(k: array<Column>, o: nat)
    requires k.Length == 8 && o in {0, 4}
    modifies k
    ensures k[o] == old(k[o]) && k[o + 1] == Xor(old(k[o + 1]), k[o])
    ensures k[o + 2] == Xor(old(k[o + 2]), old(k[o + 1])) && k[o + 3] == Xor(old(k[o + 3]), old(k[o + 2]))
    ensures BlockAt(k, 4 - o) == old(BlockAt(k, 4 - o))
  {
    hide Xor;
    k[o + 3] := Xor(k[o + 3], k[o + 2]);
    k[o + 2] := Xor(k[o + 2], k[o + 1]);
    k[o + 1] := Xor(k[o + 1], k[o]);
  }

  ghost function ScheduleAt(k: array<Column>, r: bv8): Schedule
    requires k.Length == 8
    reads k
  {
    Schedule(BlockAt(k, 0), BlockAt(k, 4), r)
  }

  method ExpandKey(k: array<Column>, r: bv8) returns (r': bv8)
    requires k.Length == 8
    modifies k
    ensures ScheduleAt(k, r') == Expand(old(ScheduleAt(k, r)))
  {
    hide Chain, Turned, Sub, Xt;
    ChainInPlace(k, 0, Turned(k[7], r));
    ChainInPlace(k, 4, Sub(k[3]));
    r' := Xt(r);
  }

  method UnexpandKey(k: array<Column>, r: bv8) returns (r': bv8)
    requires k.Length == 8
    modifies k
    ensures ScheduleAt(k, r') == Unexpand(old(ScheduleAt(k, r)))
  {
    hide Xor, Turned, Sub, XtInverse;
    UnchainInPlace(k, 4);
    k[4] := Xor(k[4], Sub(k[3]));
    UnchainInPlace(k, 0);
    r' := XtInverse(r);
    k[0] := Xor(k[0], Turned(k[7], r'));
  }

  // ------------------------------------------------------------ the two methods

  method EncryptRound(x: array<Column>, k: array<Column>, i: nat)
    requires x.Length == 4 && k.Length == 8 && x != k && i < 14
    modifies x
    ensures BlockAt(x, 0) == Round(AddKey(old(BlockAt(x, 0)), BlockAt(k, 4 * (i % 2))), i)
  {
    hide AddKey, SubBlock, ShiftRows, MixBlock;
    AddRoundKey(x, k, i % 2);
    SubBytes(x);
    ShiftRowsInPlace(x);
    if i < 13 {
      MixColumns(x);
    }
  }

  method Encrypt(lo: Block, hi: Block, buf: array<Column>)
    requires buf.Length == 4
    modifies buf
    ensures BlockAt(buf, 0) == Encrypted(Fresh(lo, hi), old(BlockAt(buf, 0)))
  {
    hide Round, AddKey, Before, Expanded, Expand;
    ghost var key, p := Fresh(lo, hi), BlockAt(buf, 0);
    var k, r := CopyKey(lo, hi);
    ExpandedStep(key, 0);
    BeforeStep(key, p, 0);
    for i := 0 to 14
      invariant BlockAt(buf, 0) == Before(key, p, i)
      invariant ScheduleAt(k, r) == Expanded(key, i / 2)
    {
      BeforeStep(key, p, i);
      EncryptRound(buf, k, i);
      if i % 2 != 0 {
        ExpandedStep(key, i / 2);
        r := ExpandKey(k, r);
      }
    }
    AddRoundKey(buf, k, 0);
  }

  lemma ExpandedStep(key: Schedule, n: nat)
    ensures Expanded(key, 0) == key && Expanded(key, n + 1) == Expand(Expanded(key, n))
  {
    hide Expand;
  }

  method CopyKey(lo: Block, hi: Block) returns (k: array<Column>, r: bv8)
    ensures fresh(k) && k.Length == 8 && ScheduleAt(k, r) == Fresh(lo, hi)
  {
    k, r := new Column[] [lo.c0, lo.c1, lo.c2, lo.c3, hi.c0, hi.c1, hi.c2, hi.c3], 1;
  }

  method DecryptTurn(x: array<Column>, k: array<Column>, i: nat)
    requires x.Length == 4 && k.Length == 8 && x != k && i < 14
    modifies x
    ensures BlockAt(x, 0) == Unround(AddKey(old(BlockAt(x, 0)), BlockAt(k, 4 * (i % 2))), i == 0)
  {
    hide AddKey, UnsubBlock, UnshiftRows, UnmixBlock;
    AddRoundKey(x, k, i % 2);
    if i > 0 {
      UnmixColumns(x);
    }
    UnshiftRowsInPlace(x);
    UnsubBytes(x);
  }

  method Decrypt(lo: Block, hi: Block, buf: array<Column>)
    requires buf.Length == 4
    modifies buf
    ensures BlockAt(buf, 0) == Decrypted(Fresh(lo, hi), old(BlockAt(buf, 0)))
  {
    hide Unround, AddKey, Undone, Expanded, Expand, Unexpand;
    ghost var key, c := Fresh(lo, hi), BlockAt(buf, 0);
    var k, r := CopyKey(lo, hi);
    ExpandedStep(key, 0);
    for i := 0 to 7
      invariant ScheduleAt(k, r) == Expanded(key, i) && BlockAt(buf, 0) == c
    {
      ExpandedStep(key, i);
      r := ExpandKey(k, r);
    }
    UndoneStep(key, c, 0);
    for i := 0 to 14
      invariant BlockAt(buf, 0) == Undone(key, c, i)
      invariant ScheduleAt(k, r) == Expanded(key, (14 - i) / 2)
    {
      UndoneStep(key, c, i);
      DecryptTurn(buf, k, i);
      if i % 2 == 0 {
        ExpandedStep(key, (14 - i) / 2 - 1);
        UnexpandExpand(Expanded(key, (14 - i) / 2 - 1));
        r := UnexpandKey(k, r);
      }
    }
    AddRoundKey(buf, k, 0);
  }
}
