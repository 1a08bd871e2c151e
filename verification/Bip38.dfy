/**
Passphrase-protected private keys (BIP 38), without EC multiplication.

Scrypt, the double hash and the address of a key are parameters: a key encrypted with a
passphrase decrypts with it to the same secret and compression choice, whatever they are.
*/
module Bip38 {
  import opened Aes
  import Base58
  import Bits
  import opened Collections

  type Bytes = seq<bv8>

  type Digest = d: Bytes | |d| == 32 witness seq(32, _ => 0)
  type Derived = d: Bytes | |d| == 64 witness seq(64, _ => 0)

  /** The functions that are not part of this model. */
  datatype Functions = Functions(
    scrypt: (Bytes, Bytes) -> Derived,        // passphrase and salt
    hash: Bytes -> Digest,
    address: (Bytes, bool) -> Bytes)          // secret and compression choice; empty if the secret is not a key

  datatype Key = Key(secret: Bytes, compressed: bool)

  datatype Result = Wrong | Other | Opened(key: Key)

  const NOEC_PREFIX: Bytes := [0x01, 0x42]
  const NOEC_FLAG: bv8 := 0x80 | 0x40
  const COMPRESSED_FLAG: bv8 := 0x20

  // ------------------------------------------------------------ bytes and blocks

  function ColumnOf(d: Bytes): Column
    requires |d| == 4
  {
    Column(d[0], d[1], d[2], d[3])
  }

  function ColumnBytes(c: Column): (d: Bytes)
    ensures |d| == 4
  {
    [c.a, c.b, c.c, c.d]
  }

  function BlockOf(d: Bytes): Block
    requires |d| == 16
  {
    Block(ColumnOf(d[..4]), ColumnOf(d[4..8]), ColumnOf(d[8..12]), ColumnOf(d[12..]))
  }

  function BlockBytes(b: Block): (d: Bytes)
    ensures |d| == 16
  {
    ColumnBytes(b.c0) + ColumnBytes(b.c1) + ColumnBytes(b.c2) + ColumnBytes(b.c3)
  }

  lemma BlockOfBytes(b: Block)
    ensures BlockOf(BlockBytes(b)) == b
  {
    var d := BlockBytes(b);
    assert d[..4] == ColumnBytes(b.c0) && d[4..8] == ColumnBytes(b.c1);
    assert d[8..12] == ColumnBytes(b.c2) && d[12..] == ColumnBytes(b.c3);
  }

  lemma BytesOfBlock(d: Bytes)
    requires |d| == 16
    ensures BlockBytes(BlockOf(d)) == d
  {
    assert ColumnBytes(ColumnOf(d[..4])) == d[..4] && ColumnBytes(ColumnOf(d[4..8])) == d[4..8];
    assert ColumnBytes(ColumnOf(d[8..12])) == d[8..12] && ColumnBytes(ColumnOf(d[12..])) == d[12..];
    assert d == d[..4] + d[4..8] + d[8..12] + d[12..];
  }

  function XorBytes(p: Bytes, q: Bytes): (r: Bytes)
    requires |p| == |q|
    ensures |r| == |p| && forall i | 0 <= i < |p| :: r[i] == Plus(p[i], q[i])
  {
    if p == [] then [] else XorBytes(p[..|p| - 1], q[..|q| - 1]) + [Plus(p[|p| - 1], q[|q| - 1])]
  }

  lemma XorBytesTwice(p: Bytes, q: Bytes)
    requires |p| == |q|
    ensures XorBytes(XorBytes(p, q), q) == p
  {
    hide Plus;
    forall i | 0 <= i < |p| ensures XorBytes(XorBytes(p, q), q)[i] == p[i] {
      PlusTwice(p[i], q[i]);
    }
  }

  /** The two halves of what scrypt derives: a mask and a cipher key. */
  function Mask(derived: Derived): (m: Bytes)
    ensures |m| == 32
  {
    derived[..32]
  }

  function CipherKey(derived: Derived): Schedule
  {
    Fresh(BlockOf(derived[32..48]), BlockOf(derived[48..]))
  }

  function EncryptBytes(key: Schedule, d: Bytes): (c: Bytes)
    requires |d| == 16
    ensures |c| == 16
  {
    BlockBytes(Encrypted(key, BlockOf(d)))
  }

  function DecryptBytes(key: Schedule, c: Bytes): (d: Bytes)
    requires |c| == 16
    ensures |d| == 16
  {
    BlockBytes(Decrypted(key, BlockOf(c)))
  }

  lemma DecryptEncryptedBytes(key: Schedule, d: Bytes)
    requires |d| == 16
    ensures DecryptBytes(key, EncryptBytes(key, d)) == d
  {
    hide Encrypted, Decrypted, BlockOf, BlockBytes;
    BlockOfBytes(Encrypted(key, BlockOf(d)));
    DecryptEncrypted(key, BlockOf(d));
    BytesOfBlock(d);
  }

  lemma EncryptDecryptedBytes(key: Schedule, c: Bytes)
    requires |c| == 16
    ensures EncryptBytes(key, DecryptBytes(key, c)) == c
  {
    hide Encrypted, Decrypted, BlockOf, BlockBytes;
    BlockOfBytes(Decrypted(key, BlockOf(c)));
    EncryptDecrypted(key, BlockOf(c));
    BytesOfBlock(c);
  }

  // ------------------------------------------------------------- the 39 bytes

  function Salt(f: Functions, key: Key): (s: Bytes)
    ensures |s| == 4
  {
    f.hash(f.address(key.secret, key.compressed))[..4]
  }

  function FlagOf(compressed: bool): bv8 {
    if compressed then NOEC_FLAG | COMPRESSED_FLAG else NOEC_FLAG
  }

  /** Half of a secret, masked and encrypted, and back. */
  function Seal(derived: Derived, half: Bytes, at: nat): (c: Bytes)
    requires |half| == 16 && at <= 16
    ensures |c| == 16
  {
    hide Encrypted;
    EncryptBytes(CipherKey(derived), XorBytes(half, Mask(derived)[at..at + 16]))
  }

  function Unseal(derived: Derived, c: Bytes, at: nat): (half: Bytes)
    requires |c| == 16 && at <= 16
    ensures |half| == 16
  {
    hide Decrypted;
    XorBytes(DecryptBytes(CipherKey(derived), c), Mask(derived)[at..at + 16])
  }

  lemma UnsealSealed(derived: Derived, half: Bytes, at: nat)
    requires |half| == 16 && at <= 16
    ensures Unseal(derived, Seal(derived, half, at), at) == half
  {
    hide EncryptBytes, DecryptBytes, CipherKey, XorBytes;
    var mask := Mask(derived)[at..at + 16];
    DecryptEncryptedBytes(CipherKey(derived), XorBytes(half, mask));
    XorBytesTwice(half, mask);
  }

  lemma SealUnsealed(derived: Derived, c: Bytes, at: nat)
    requires |c| == 16 && at <= 16
    ensures Seal(derived, Unseal(derived, c, at), at) == c
  {
    hide EncryptBytes, DecryptBytes, CipherKey, XorBytes;
    var mask := Mask(derived)[at..at + 16];
    XorBytesTwice(DecryptBytes(CipherKey(derived), c), mask);
    EncryptDecryptedBytes(CipherKey(derived), c);
  }

  /** prefix + flag + address hash + two encrypted halves */
  function Layout(flag: bv8, salt: Bytes, x: Bytes, y: Bytes): (d: Bytes)
    requires |salt| == 4 && |x| == |y| == 16
    ensures |d| == 39 && d[..2] == NOEC_PREFIX && d[2] == flag && d[3..7] == salt && d[7..23] == x && d[23..] == y
  {
    NOEC_PREFIX + [flag] + salt + x + y
  }

  lemma LayoutUnique(d: Bytes)
    requires |d| == 39 && d[..2] == NOEC_PREFIX
    ensures d == Layout(d[2], d[3..7], d[7..23], d[23..])
  {
    assert d == d[..2] + [d[2]] + d[3..7] + d[7..23] + d[23..];
  }

  function Payload(f: Functions, key: Key, passphrase: Bytes): (d: Bytes)
    requires |key.secret| == 32
    ensures |d| == 39
  {
    hide Encrypted;
    var salt := Salt(f, key);
    var derived := f.scrypt(passphrase, salt);
    Layout(FlagOf(key.compressed), salt, Seal(derived, key.secret[..16], 0), Seal(derived, key.secret[16..], 16))
  }

  /** The fields of a payload: prefix, flag, salt and the two halves of the secret, sealed. */
  ghost predicate HasFields(d: Bytes, flag: bv8, salt: Bytes, derived: Derived, secret: Bytes) {
    && |d| == 39 && |secret| == 32
    && d[..2] == NOEC_PREFIX && d[2] == flag && d[3..7] == salt
    && d[7..23] == Seal(derived, secret[..16], 0) && d[23..] == Seal(derived, secret[16..], 16)
  }

  lemma PayloadFields(f: Functions, key: Key, passphrase: Bytes)
    requires |key.secret| == 32
    ensures HasFields(Payload(f, key, passphrase), FlagOf(key.compressed), Salt(f, key),
                      f.scrypt(passphrase, Salt(f, key)), key.secret)
  {
    hide Seal, Salt, FlagOf, Layout;
  }

  function Secret(f: Functions, d: Bytes, passphrase: Bytes): (s: Bytes)
    requires |d| == 39
    ensures |s| == 32
  {
    hide Decrypted;
    var derived := f.scrypt(passphrase, d[3..7]);
    Unseal(derived, d[7..23], 0) + Unseal(derived, d[23..], 16)
  }

  /** Opening a payload; EC-multiplied keys and unknown prefixes are `Other`. */
  function Open(f: Functions, d: Bytes, passphrase: Bytes): Result
  {
    if |d| != 39 then Wrong
    else if d[..2] != NOEC_PREFIX then Other
    else
      var key := Key(Secret(f, d, passphrase), d[2] & COMPRESSED_FLAG != 0);
      var address := f.address(key.secret, key.compressed);
      if address == [] || f.hash(address)[..4] != d[3..7] then Wrong else Opened(key)
  }

  lemma FlagRead(compressed: bool)
    ensures FlagOf(compressed) & COMPRESSED_FLAG != 0 <==> compressed
  {
  }

  /** The encrypted halves give the secret back. */
  lemma SecretOfSealed(f: Functions, passphrase: Bytes, d: Bytes, flag: bv8, salt: Bytes, secret: Bytes)
    requires HasFields(d, flag, salt, f.scrypt(passphrase, salt), secret)
    ensures Secret(f, d, passphrase) == secret
  {
    hide Seal, Unseal;
    var derived := f.scrypt(passphrase, salt);
    UnsealSealed(derived, secret[..16], 0);
    UnsealSealed(derived, secret[16..], 16);
    assert secret == secret[..16] + secret[16..];
  }

  lemma SaltMeans(f: Functions, key: Key)
    ensures Salt(f, key) == f.hash(f.address(key.secret, key.compressed))[..4]
  {
  }

  /** Every key that has an address opens with its own passphrase. */
  lemma OpenPayload(f: Functions, key: Key, passphrase: Bytes)
    requires |key.secret| == 32 && f.address(key.secret, key.compressed) != []
    ensures Open(f, Payload(f, key, passphrase), passphrase) == Opened(key)
  {
    hide Payload, Secret, FlagOf, Salt, Seal;
    var d := Payload(f, key, passphrase);
    PayloadFields(f, key, passphrase);
    SecretOfSealed(f, passphrase, d, FlagOf(key.compressed), Salt(f, key), key.secret);
    FlagRead(key.compressed);
    SaltMeans(f, key);
  }

  /** What opens to a key is that key's payload under the same passphrase, if and only if its
      flag byte holds nothing but what the code writes there. */
  lemma ProtectOpened(f: Functions, d: Bytes, passphrase: Bytes, key: Key)
    requires Open(f, d, passphrase) == Opened(key)
    ensures |key.secret| == 32 && f.address(key.secret, key.compressed) != []
    ensures Payload(f, key, passphrase) == d <==> d[2] == FlagOf(key.compressed)
  {
    hide Seal, Unseal, FlagOf, Layout;
    var salt := d[3..7];
    var derived := f.scrypt(passphrase, salt);
    assert key.secret[..16] == Unseal(derived, d[7..23], 0) && key.secret[16..] == Unseal(derived, d[23..], 16);
    SealUnsealed(derived, d[7..23], 0);
    SealUnsealed(derived, d[23..], 16);
    LayoutUnique(d);
    assert Payload(f, key, passphrase) == Layout(FlagOf(key.compressed), salt, d[7..23], d[23..]);
  }

  // ------------------------------------------------------------------ in place

  method EncryptHalf(derived: Derived, half: Bytes) returns (c: Bytes)
    requires |half| == 16
    ensures c == EncryptBytes(CipherKey(derived), half)
  {
    hide Encrypted, BlockOf, BlockBytes;
    var b := BlockOf(half);
    var buf := new Column[] [b.c0, b.c1, b.c2, b.c3];
    Encrypt(BlockOf(derived[32..48]), BlockOf(derived[48..]), buf);
    c := BlockBytes(Block(buf[0], buf[1], buf[2], buf[3]));
  }

  method DecryptHalf(derived: Derived, half: Bytes) returns (d: Bytes)
    requires |half| == 16
    ensures d == DecryptBytes(CipherKey(derived), half)
  {
    hide Decrypted, BlockOf, BlockBytes;
    var b := BlockOf(half);
    var buf := new Column[] [b.c0, b.c1, b.c2, b.c3];
    Decrypt(BlockOf(derived[32..48]), BlockOf(derived[48..]), buf);
    d := BlockBytes(Block(buf[0], buf[1], buf[2], buf[3]));
  }

  // --------------------------------------------------------------- as strings

  function ToNats(d: Bytes): (n: seq<Bits.Byte>)
    ensures |n| == |d| && forall i | 0 <= i < |d| :: n[i] == d[i] as int
  {
    if d == [] then [] else ToNats(d[..|d| - 1]) + [d[|d| - 1] as int]
  }

  function FromNats(n: seq<Bits.Byte>): (d: Bytes)
    ensures |d| == |n| && forall i | 0 <= i < |n| :: d[i] == n[i] as bv8
  {
    if n == [] then [] else FromNats(n[..|n| - 1]) + [n[|n| - 1] as bv8]
  }

  lemma FromNatsToNats(d: Bytes)
    ensures FromNats(ToNats(d)) == d
  {
  }

  function HashNats(f: Functions, d: seq<Bits.Byte>): (h: seq<Bits.Byte>)
    ensures |h| == 32
  {
    ToNats(f.hash(FromNats(d)))
  }

  function NatHash(f: Functions): (h: seq<Bits.Byte> -> seq<Bits.Byte>)
    ensures forall d :: |h(d)| == 32
  {
    d => HashNats(f, d)
  }

  /** The protected key as a string. */
  method Bip38Key(f: Functions, key: Key, passphrase: Bytes, strLen: nat) returns (s: Option<string>)
    requires |key.secret| == 32
    ensures s == if |Protected(f, key, passphrase)| + 1 <= strLen then Some(Protected(f, key, passphrase)) else None
  {
    hide EncryptBytes, CipherKey, XorBytes, Base58.Encoded;
    var salt := Salt(f, key);
    var derived := f.scrypt(passphrase, salt);
    var encrypted1 := EncryptHalf(derived, XorBytes(key.secret[..16], Mask(derived)[0..16]));
    var encrypted2 := EncryptHalf(derived, XorBytes(key.secret[16..], Mask(derived)[16..32]));
    var buf := Layout(FlagOf(key.compressed), salt, encrypted1, encrypted2);
    s := Base58.CheckEncode(NatHash(f), ToNats(buf), strLen);
  }

  /** Opens a protected key. */
  method SetBip38Key(f: Functions, s: string, passphrase: Bytes) returns (r: Result)
    ensures r == Open(f, FromNats(Base58.CheckDecoded(NatHash(f), s)), passphrase)
  {
    hide DecryptBytes, CipherKey, XorBytes, Base58.CheckDecoded;
    var decoded := Base58.CheckDecode(NatHash(f), s, 39);
    if |decoded| != 39 {
      return Wrong;
    }
    var data := FromNats(decoded);
    if data[..2] != NOEC_PREFIX {
      return Other;
    }
    var derived := f.scrypt(passphrase, data[3..7]);
    var half1 := DecryptHalf(derived, data[7..23]);
    var half2 := DecryptHalf(derived, data[23..]);
    var secret := XorBytes(half1, Mask(derived)[0..16]) + XorBytes(half2, Mask(derived)[16..32]);
    var key := Key(secret, data[2] & COMPRESSED_FLAG != 0);
    var address := f.address(key.secret, key.compressed);
    if address == [] || f.hash(address)[..4] != data[3..7] {
      return Wrong;
    }
    return Opened(key);
  }

  function Protected(f: Functions, key: Key, passphrase: Bytes): string
    requires |key.secret| == 32
  {
    Base58.Encoded(Base58.Checked(NatHash(f), ToNats(Payload(f, key, passphrase))))
  }

  /** A protected key opens with its own passphrase, to the same secret and compression choice. */
  lemma OpenProtected(f: Functions, key: Key, passphrase: Bytes)
    requires |key.secret| == 32 && f.address(key.secret, key.compressed) != []
    ensures Open(f, FromNats(Base58.CheckDecoded(NatHash(f), Protected(f, key, passphrase))), passphrase) == Opened(key)
  {
    hide Payload, Open, Base58.Encoded, Base58.CheckDecoded;
    var d := Payload(f, key, passphrase);
    Base58.CheckRoundTrip(NatHash(f), ToNats(d));
    FromNatsToNats(d);
    OpenPayload(f, key, passphrase);
  }

  /** The advertised length holds every protected key and its terminator. */
  lemma ProtectedFits(f: Functions, key: Key, passphrase: Bytes)
    requires |key.secret| == 32
    ensures |Protected(f, key, passphrase)| + 1 <= 43 * 138 / 100 + 2
  {
    hide Payload, Base58.LeadingZeros, Seal, FlagOf, Salt;
    var d := Payload(f, key, passphrase);
    PayloadFields(f, key, passphrase);
    assert d[0] == d[..2][0] == 1;
    var n := Base58.Checked(NatHash(f), ToNats(d));
    assert n[0] == ToNats(d)[0] == 1 && |n| == 43;
    Base58.EncodedLength(n);
  }
}
