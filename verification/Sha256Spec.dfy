/** SHA-256 as FIPS 180-4 defines it: sections 4.1.2, 5.1.1, 5.2.1, 5.3.3 and 6.2.2. */
module Sha256Spec {

  const BLOCK_SIZE := 64

  const ROUND_CONSTANTS: seq<bv32> :=
    [0x428a2f98, 0x71374491, 0xb5c0fbcf, 0xe9b5dba5, 0x3956c25b, 0x59f111f1, 0x923f82a4, 0xab1c5ed5]
    + [0xd807aa98, 0x12835b01, 0x243185be, 0x550c7dc3, 0x72be5d74, 0x80deb1fe, 0x9bdc06a7, 0xc19bf174]
    + [0xe49b69c1, 0xefbe4786, 0x0fc19dc6, 0x240ca1cc, 0x2de92c6f, 0x4a7484aa, 0x5cb0a9dc, 0x76f988da]
    + [0x983e5152, 0xa831c66d, 0xb00327c8, 0xbf597fc7, 0xc6e00bf3, 0xd5a79147, 0x06ca6351, 0x14292967]
    + [0x27b70a85, 0x2e1b2138, 0x4d2c6dfc, 0x53380d13, 0x650a7354, 0x766a0abb, 0x81c2c92e, 0x92722c85]
    + [0xa2bfe8a1, 0xa81a664b, 0xc24b8b70, 0xc76c51a3, 0xd192e819, 0xd6990624, 0xf40e3585, 0x106aa070]
    + [0x19a4c116, 0x1e376c08, 0x2748774c, 0x34b0bcb5, 0x391c0cb3, 0x4ed8aa4a, 0x5b9cca4f, 0x682e6ff3]
    + [0x748f82ee, 0x78a5636f, 0x84c87814, 0x8cc70208, 0x90befffa, 0xa4506ceb, 0xbef9a3f7, 0xc67178f2]

  /** Addition modulo 2^32. */
  function Add(x: bv32, y: bv32): bv32 { x + y }

  function Rotr(x: bv32, n: bv32): bv32
    requires n <= 32
  {
    (x >> n) | (x << (32 - n))
  }

  function Ch(x: bv32, y: bv32, z: bv32): bv32 { (x & y) ^ (!x & z) }

  function Maj(x: bv32, y: bv32, z: bv32): bv32 { (x & y) ^ (x & z) ^ (y & z) }

  function BigSigma0(x: bv32): bv32 { Rotr(x, 2) ^ Rotr(x, 13) ^ Rotr(x, 22) }

  function BigSigma1(x: bv32): bv32 { Rotr(x, 6) ^ Rotr(x, 11) ^ Rotr(x, 25) }

  function SmallSigma0(x: bv32): bv32 { Rotr(x, 7) ^ Rotr(x, 18) ^ (x >> 3) }

  function SmallSigma1(x: bv32): bv32 { Rotr(x, 17) ^ Rotr(x, 19) ^ (x >> 10) }

  type State = s: seq<bv32> | |s| == 8 witness [0, 0, 0, 0, 0, 0, 0, 0]
  type Block = s: seq<bv32> | |s| == 16 witness [0, 0, 0, 0, 0, 0, 0, 0, 0, 0, 0, 0, 0, 0, 0, 0]
  type Digest256 = d: seq<bv8> | |d| == 32 witness seq(32, _ => 0)

  /** The initial hash value H(0), section 5.3.3. */
  const INITIAL: State := [
    0x6a09e667, 0xbb67ae85, 0x3c6ef372, 0xa54ff53a,
    0x510e527f, 0x9b05688c, 0x1f83d9ab, 0x5be0cd19]

  /** A big-endian word. */
  function ReadBE32(p: seq<bv8>): bv32
    requires |p| == 4
  {
    ((p[0] as bv32) << 24) | ((p[1] as bv32) << 16) | ((p[2] as bv32) << 8) | (p[3] as bv32)
  }

  function WriteBE32(v: bv32): (p: seq<bv8>)
    ensures |p| == 4
  {
    [(v >> 24) as bv8, ((v >> 16) & 0xFF) as bv8, ((v >> 8) & 0xFF) as bv8, (v & 0xFF) as bv8]
  }

  function ByteOf(n: nat): bv8 {
    if n == 0 then 0 else (ByteOf(n / 2) << 1) | (if n % 2 == 1 then 1 else 0)
  }

  function Zeros(n: nat): (z: seq<bv8>)
    ensures |z| == n && forall i :: 0 <= i < n ==> z[i] == 0
  {
    seq(n, _ => 0)
  }

  /** The k least significant bytes of n, most significant first. */
  function BigEndian(n: nat, k: nat): (p: seq<bv8>)
    ensures |p| == k
    decreases k, n
  {
    if k == 0 then [] else BigEndian(n / 256, k - 1) + [ByteOf(n % 256)]
  }

  /** Section 5.2.1: a 512-bit block is sixteen big-endian words. */
  function WordsOf(block: seq<bv8>): Block
    requires |block| == BLOCK_SIZE
  {
    seq(16, i requires 0 <= i < 16 => ReadBE32(block[4 * i..4 * i + 4]))
  }

  /** Section 6.2.2, step 1: the next word of the message schedule. */
  function NextWord(w2: bv32, w7: bv32, w15: bv32, w16: bv32): bv32 {
    Add(Add(Add(SmallSigma1(w2), w7), SmallSigma0(w15)), w16)
  }

  function Schedule(m: Block, t: nat): (w: seq<bv32>)
    requires 16 <= t
    ensures |w| == t
    decreases t, m
  {
    if t == 16 then m else var w := Schedule(m, t - 1); w + [NextWord(w[t - 3], w[t - 8], w[t - 16], w[t - 17])]
  }

  lemma ScheduleStep(m: Block, t: nat)
    requires 16 <= t
    ensures var w := Schedule(m, t);
      Schedule(m, t + 1) == w + [NextWord(w[t - 2], w[t - 7], w[t - 15], w[t - 16])] && Schedule(m, 16) == m
  {
  }

  datatype Working = Vars(a: bv32, b: bv32, c: bv32, d: bv32, e: bv32, f: bv32, g: bv32, h: bv32)

  /** Section 6.2.2, step 3: one round. */
  function Temp1(e: bv32, f: bv32, g: bv32, h: bv32, k: bv32, w: bv32): bv32 {
    Add(Add(Add(Add(h, BigSigma1(e)), Ch(e, f, g)), k), w)
  }

  function Temp2(a: bv32, b: bv32, c: bv32): bv32 { Add(BigSigma0(a), Maj(a, b, c)) }

  function Round(v: Working, k: bv32, w: bv32): Working {
    var t1, t2 := Temp1(v.e, v.f, v.g, v.h, k, w), Temp2(v.a, v.b, v.c);
    Vars(Add(t1, t2), v.a, v.b, v.c, Add(v.d, t1), v.e, v.f, v.g)
  }

  /** Section 6.2.2, steps 2 and 3: the working variables after t rounds. */
  function Rounds(s: State, w: seq<bv32>, t: nat): Working
    requires t <= 64 == |w|
    decreases t, w
  {
    if t == 0 then Vars(s[0], s[1], s[2], s[3], s[4], s[5], s[6], s[7])
    else Round(Rounds(s, w, t - 1), ROUND_CONSTANTS[t - 1], w[t - 1])
  }

  /** Section 6.2.2, step 4. */
  function AddState(s: State, v: Working): State {
    [Add(s[0], v.a), Add(s[1], v.b), Add(s[2], v.c), Add(s[3], v.d),
     Add(s[4], v.e), Add(s[5], v.f), Add(s[6], v.g), Add(s[7], v.h)]
  }

  /** Section 6.2.2: the intermediate hash value after one more block. */
  function Compress(s: State, m: Block): State {
    AddState(s, Rounds(s, Schedule(m, 64), 64))
  }

  /** The hash value H(n) after the first n blocks of m. */
  function Absorb(m: seq<bv8>, n: nat): State
    requires BLOCK_SIZE * n <= |m|
    decreases n, m
  {
    if n == 0 then INITIAL
    else Compress(Absorb(m, n - 1), WordsOf(m[BLOCK_SIZE * (n - 1)..BLOCK_SIZE * n]))
  }

  /** The number of zero bytes: the least k with length + 1 + k congruent to 56 modulo 64. */
  function PadZeros(length: nat): (k: nat)
    ensures k < 64 && (length + 1 + k) % 64 == 56
  {
    (119 - length % 64) % 64
  }

  /** Section 5.1.1: a one bit, zero bits, and the length in bits as 64 bits. */
  function Pad(m: seq<bv8>): seq<bv8> { PadWith(m, BigEndian(8 * |m|, 8)) }

  function PadWith(m: seq<bv8>, trailer: seq<bv8>): seq<bv8> {
    m + [0x80] + Zeros(PadZeros(|m|)) + trailer
  }

  function DigestWords(s: State, n: nat): (d: seq<bv8>)
    requires n <= 8
    ensures |d| == 4 * n
    decreases n, s
  {
    if n == 0 then [] else DigestWords(s, n - 1) + WriteBE32(s[n - 1])
  }

  function Digest(s: State): Digest256 { DigestWords(s, 8) }

  /** The SHA-256 digest of m, defined by the standard for fewer than 2^64 bits. */
  function Sha256(m: seq<bv8>): Digest256
    requires |m| < 0x2000_0000_0000_0000
  {
    var p := Pad(m);
    Digest(Absorb(p, |p| / BLOCK_SIZE))
  }

  function Sha256d(m: seq<bv8>): Digest256
    requires |m| < 0x2000_0000_0000_0000
  {
    Sha256(Sha256(m))
  }

  lemma ReadWriteBE32(v: bv32)
    ensures ReadBE32(WriteBE32(v)) == v
  {
  }
}
