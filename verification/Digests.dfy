/** src/fs/cas.rs: content digests, chosen by size and fed chunk by chunk. */
module Digests {
  import opened Types

  const HASH_THRESHOLD := 10 * 1024 * 1024

  /** The two library hash functions; XXH3 yields a 128-bit number. */
  datatype Hashers = Hashers(sha256: Bytes -> Digest, xxh3: Bytes -> nat)

  function Pow256(n: nat): nat {
    if n == 0 then 1 else 256 * Pow256(n - 1)
  }

  ghost predicate WellSized(h: Hashers) {
    && (forall c :: |h.sha256(c)| == 32)
    && (forall c :: h.xxh3(c) < Pow256(16))
  }

  /** `to_be_bytes` for a number of `len` bytes. */
  function BigEndian(n: nat, len: nat): (r: Bytes)
    ensures |r| == len
    decreases len
  {
    if len == 0 then [] else BigEndian(n / 256, len - 1) + [(n % 256) as byte]
  }

  function FromBigEndian(b: Bytes): nat {
    if b == [] then 0 else 256 * FromBigEndian(b[..|b| - 1]) + b[|b| - 1] as nat
  }

  lemma {:induction false} BigEndianRoundTrip(n: nat, len: nat)
    requires n < Pow256(len)
    ensures FromBigEndian(BigEndian(n, len)) == n
    decreases len
  {
    if len == 0 {
    } else {
      BigEndianRoundTrip(n / 256, len - 1);
      var b := BigEndian(n, len);
      assert b[..|b| - 1] == BigEndian(n / 256, len - 1);
    }
  }

  /** What `hash_file` computes of a file's content. */
  function FileDigest(h: Hashers): Bytes -> Digest {
    c => if |c| <= HASH_THRESHOLD then h.sha256(c) else BigEndian(h.xxh3(c), 16)
  }

  /** The size class shows in the digest's length, and no digest is the empty default. */
  lemma DigestLength(h: Hashers, c: Bytes)
    requires WellSized(h)
    ensures |FileDigest(h)(c)| == if |c| <= 10_485_760 then 32 else 16
    ensures FileDigest(h)(c) != []
  {
  }

  /** So hash functions free of collisions within each size class give a file digest free of
      collisions across both. */
  lemma FileDigestSeparates(h: Hashers, s: iset<Bytes>)
    requires WellSized(h)
    requires Separates(h.sha256, iset c | c in s && |c| <= HASH_THRESHOLD)
    requires forall a, b | a in s && b in s && |a| > HASH_THRESHOLD && |b| > HASH_THRESHOLD && h.xxh3(a) == h.xxh3(b) :: a == b
    ensures Separates(FileDigest(h), s)
  {
    forall a, b | a in s && b in s && FileDigest(h)(a) == FileDigest(h)(b) ensures a == b {
      DigestLength(h, a);
      DigestLength(h, b);
      if |a| > HASH_THRESHOLD {
        BigEndianRoundTrip(h.xxh3(a), 16);
        BigEndianRoundTrip(h.xxh3(b), 16);
      }
    }
  }

  // ---------------------------------------------------------------- reading in chunks

  /** How many bytes a read returns: the operating system's choice, at least one before the end of
      the file and never more than the buffer holds. */
  function Granted(choice: nat, room: nat, left: nat): (n: nat)
    requires room > 0
    ensures n <= room && n <= left
    ensures n == 0 <==> left == 0
  {
    var most := if room < left then room else left;
    if choice == 0 then (if most == 0 then 0 else 1)
    else if choice < most then choice else most
  }

  /** The incremental form of a hash function: the library's hasher object, with state `S`. */
  datatype Stream<!S> = Stream(start: S, update: (S, Bytes) -> S, finalize: S -> Digest)

  /** What the library promises of it: feeding bytes in pieces is feeding them at once, and a fresh
      hasher fed the whole input finalizes to the input's hash. */
  ghost predicate Streams<S(!new)>(x: Stream<S>, hash: Bytes -> Digest) {
    && x.update(x.start, []) == x.start
    && (forall a, b :: x.update(x.update(x.start, a), b) == x.update(x.start, a + b))
    && (forall c :: x.finalize(x.update(x.start, c)) == hash(c))
  }

  lemma StreamLaws<S(!new)>(x: Stream<S>, hash: Bytes -> Digest, a: Bytes, b: Bytes)
    requires Streams(x, hash)
    ensures x.update(x.start, []) == x.start
    ensures x.update(x.update(x.start, a), b) == x.update(x.start, a + b)
    ensures x.finalize(x.update(x.start, a)) == hash(a)
  {
  }

  /** `chunks(k)` is the k-th read's choice of length, None an I/O error. */
  method HashSha256<S(!new)>(h: Hashers, x: Stream<S>, content: Bytes, chunks: nat -> Option<nat>) returns (r: Option<Digest>)
    requires Streams(x, h.sha256)
    ensures r.Some? ==> r.value == h.sha256(content)
    ensures (forall k :: chunks(k).Some?) ==> r.Some?
  {
    hide Streams;
    var hasher, pos, k := x.start, 0, 0;
    StreamLaws(x, h.sha256, content, []);
    while true
      invariant pos <= |content| && hasher == x.update(x.start, content[..pos])
      decreases |content| - pos
    {
      var choice := chunks(k);
      k := k + 1;
      if choice.None? { return None; }
      var n := Granted(choice.value, 8192, |content| - pos);
      if n == 0 { break; }
      assert content[..pos] + content[pos..pos + n] == content[..pos + n];
      StreamLaws(x, h.sha256, content[..pos], content[pos..pos + n]);
      hasher := x.update(hasher, content[pos..pos + n]);
      pos := pos + n;
    }
    assert content[..pos] == content;
    return Some(x.finalize(hasher));
  }

  method HashXxh3(h: Hashers, content: Bytes, chunks: nat -> Option<nat>) returns (r: Option<Digest>)
    ensures r.Some? ==> r.value == BigEndian(h.xxh3(content), 16)
    ensures (forall k :: chunks(k).Some?) ==> r.Some?
  {
    var total: Bytes, pos, k := [], 0, 0;
    while true
      invariant pos <= |content| && total == content[..pos]
      decreases |content| - pos
    {
      var choice := chunks(k);
      k := k + 1;
      if choice.None? { return None; }
      var n := Granted(choice.value, 65536, |content| - pos);
      if n == 0 { break; }
      total := total + content[pos..pos + n];
      pos := pos + n;
    }
    assert total == content;
    return Some(BigEndian(h.xxh3(total), 16));
  }

  /** However the reads are split, the result is the digest of the whole content. */
  method HashFile<S(!new)>(h: Hashers, x: Stream<S>, file: Option<Bytes>, chunks: nat -> Option<nat>) returns (r: Option<Digest>)
    requires Streams(x, h.sha256)
    ensures file.None? ==> r.None?
    ensures r.Some? ==> r.value == FileDigest(h)(file.value)
    ensures file.Some? && (forall k :: chunks(k).Some?) ==> r.Some?
  {
    if file.None? { return None; }
    if |file.value| <= HASH_THRESHOLD {
      r := HashSha256(h, x, file.value, chunks);
    } else {
      r := HashXxh3(h, file.value, chunks);
    }
  }

  // ---------------------------------------------------------------- hex

  const HEX: seq<char> := "0123456789abcdef"

  function HexByte(b: byte): (s: string)
    ensures |s| == 2
  {
    [HEX[b as int / 16], HEX[b as int % 16]]
  }

  function HashHex(d: Digest): string {
    if d == [] then "" else HexByte(d[0]) + HashHex(d[1..])
  }

  function HexDigit(c: char): Option<nat> {
    if '0' <= c <= '9' then Some(c as int - '0' as int)
    else if 'a' <= c <= 'f' then Some(c as int - 'a' as int + 10)
    else None
  }

  function Unhex(s: string): Option<Digest>
    decreases |s|
  {
    if s == "" then Some([])
    else if |s| == 1 then None
    else
      var (hi, lo, rest) := (HexDigit(s[0]), HexDigit(s[1]), Unhex(s[2..]));
      if hi.Some? && lo.Some? && rest.Some? && 16 * hi.value + lo.value < 256
      then Some([(16 * hi.value + lo.value) as byte] + rest.value) else None
  }

  lemma HexByteBack(b: byte)
    ensures HexDigit(HexByte(b)[0]) == Some(b as int / 16)
    ensures HexDigit(HexByte(b)[1]) == Some(b as int % 16)
  {
  }

  /** The printed form determines the digest: reading it back is the inverse of printing. */
  lemma {:induction false} HexRoundTrip(d: Digest)
    ensures Unhex(HashHex(d)) == Some(d)
  {
    hide HexByte, HexDigit;
    if d == [] {
    } else {
      HexRoundTrip(d[1..]);
      HexByteBack(d[0]);
      assert HashHex(d)[0] == HexByte(d[0])[0] && HashHex(d)[1] == HexByte(d[0])[1];
      assert HashHex(d)[2..] == HashHex(d[1..]);
      assert d == [d[0]] + d[1..];
    }
  }

  lemma HexByteIs(b: byte)
    ensures HexByte(b) == ["0123456789abcdef"[b as int / 16], "0123456789abcdef"[b as int % 16]]
  {
  }

  /** Each byte prints as two lower-case hexadecimal digits, the high one first. */
  lemma {:induction false} HexDigitsOf(d: Digest, k: nat)
    requires k < |d|
    ensures |HashHex(d)| == 2 * |d|
    ensures HashHex(d)[2 * k..2 * k + 2] == ["0123456789abcdef"[d[k] as int / 16], "0123456789abcdef"[d[k] as int % 16]]
  {
    HexByteIs(d[k]);
    HexAt(d, k);
  }

  lemma {:induction false} HexAt(d: Digest, k: nat)
    requires k < |d|
    ensures |HashHex(d)| == 2 * |d| && HashHex(d)[2 * k..2 * k + 2] == HexByte(d[k])
  {
    hide HexByte;
    if k == 0 {
      if |d| > 1 { HexAt(d[1..], 0); }
    } else {
      HexAt(d[1..], k - 1);
      assert HashHex(d)[2 * k..2 * k + 2] == HashHex(d[1..])[2 * (k - 1)..2 * (k - 1) + 2];
    }
  }

  lemma HexInjective(a: Digest, b: Digest)
    requires HashHex(a) == HashHex(b)
    ensures a == b
  {
    HexRoundTrip(a);
    HexRoundTrip(b);
  }
}
