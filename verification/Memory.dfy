/** Bytes in memory: reading at a position, overwriting a part of a buffer, and numbers in
    network byte order. */
module Memory {

  type byte = b: int | 0 <= b < 256 witness 0

  type u16 = n: int | 0 <= n < 0x1_0000 witness 0
  type u32 = n: int | 0 <= n < 0x1_0000_0000 witness 0

  /** Arithmetic in u8_t and u16_t. */
  function U8(n: nat): byte { n % 0x100 }

  function U16(n: nat): u16 { n % 0x1_0000 }

  /** A byte of the memory that starts with `b`; what follows it is taken to be zero, as the
      byte behind a C string is. */
  function At(b: seq<byte>, p: nat): byte {
    if p < |b| then b[p] else 0
  }

  lemma Regroup(a: seq<byte>, b: seq<byte>, c: seq<byte>)
    ensures a + (b + c) == (a + b) + c
  {
  }

  /** The bytes w stand in the memory b at p. */
  predicate StandsAt(b: seq<byte>, p: nat, w: seq<byte>) {
    p + |w| <= |b| && b[p..p + |w|] == w
  }

  lemma StandsFirst(b: seq<byte>, p: nat, v: seq<byte>)
    requires StandsAt(b, p, v) && v != []
    ensures At(b, p) == v[0]
  {
    assert b[p..p + |v|][0] == b[p];
  }

  lemma StandsApart(b: seq<byte>, p: nat, v: seq<byte>, w: seq<byte>)
    ensures StandsAt(b, p, v + w) <==> StandsAt(b, p, v) && StandsAt(b, p + |v|, w)
  {
    if p + |v| + |w| <= |b| {
      var bytes := b[p..p + |v| + |w|];
      assert bytes == b[p..p + |v|] + b[p + |v|..p + |v| + |w|];
      assert (v + w)[..|v|] == v && (v + w)[|v|..] == w;
      assert bytes[..|v|] == b[p..p + |v|] && bytes[|v|..] == b[p + |v|..p + |v| + |w|];
    }
  }

  /** A buffer b of which the bytes from `at` on have been overwritten by `written`. */
  predicate Holds(now: seq<byte>, b: seq<byte>, at: nat, written: seq<byte>) {
    at + |written| <= |b| && now == b[..at] + written + b[at + |written|..]
  }

  lemma HoldsMore(now: seq<byte>, b: seq<byte>, at: nat, written: seq<byte>, now': seq<byte>, more: seq<byte>)
    requires Holds(now, b, at, written) && Holds(now', now, at + |written|, more)
    ensures Holds(now', b, at, written + more)
  {
    var q := at + |written|;
    assert now[..q] == b[..at] + written;
    assert now[q + |more|..] == b[q + |more|..];
  }

  lemma HoldsSize(now: seq<byte>, b: seq<byte>, at: nat, written: seq<byte>)
    requires Holds(now, b, at, written)
    ensures |now| == |b|
  {
  }

  lemma HoldsByte(now: seq<byte>, b: seq<byte>, at: nat, written: seq<byte>, x: byte)
    requires Holds(now, b, at, written) && at + |written| < |b|
    ensures Holds(now[at + |written| := x], b, at, written + [x])
  {
    var q := at + |written|;
    assert Holds(now[q := x], now, q, [x]);
    HoldsMore(now, b, at, written, now[q := x], [x]);
  }

  lemma HoldsNothing(b: seq<byte>, at: nat)
    requires at <= |b|
    ensures Holds(b, b, at, [])
  {
  }

  // ---------------------------------------------------------------- network byte order

  function Be16(n: u16): seq<byte> { [n / 0x100, n % 0x100] }

  function Be32(n: u32): seq<byte> { Be16(n / 0x1_0000) + Be16(n % 0x1_0000) }

  function Read16(b: seq<byte>, p: nat): u16 { At(b, p) * 0x100 + At(b, p + 1) }

  function Read32(b: seq<byte>, p: nat): u32 { Read16(b, p) * 0x1_0000 + Read16(b, p + 2) }

  lemma ReadsBe16(b: seq<byte>, p: nat, n: u16)
    requires StandsAt(b, p, Be16(n))
    ensures Read16(b, p) == n
  {
    assert At(b, p) == Be16(n)[0] && At(b, p + 1) == Be16(n)[1];
  }

  lemma ReadsBe32(b: seq<byte>, p: nat, n: u32)
    requires StandsAt(b, p, Be32(n))
    ensures Read32(b, p) == n
  {
    StandsApart(b, p, Be16(n / 0x1_0000), Be16(n % 0x1_0000));
    ReadsBe16(b, p, n / 0x1_0000);
    ReadsBe16(b, p + 2, n % 0x1_0000);
  }
}
