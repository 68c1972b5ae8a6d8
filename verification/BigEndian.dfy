/**
  Fixed-width big-endian integers, as appended by internal/reflect/utils.go and read
  back with encoding/binary. Every Put function truncates to its width, like Go's
  conversions to uint16, uint32 and uint64.
 */
module BigEndian {
  import opened Common

  function Put16(n: nat): (b: seq<Byte>)
    ensures |b| == 2
  {
    [n / 0x100 % 0x100, n % 0x100]
  }

  function Put32(n: nat): (b: seq<Byte>)
    ensures |b| == 4
  {
    [n / 0x100_0000 % 0x100, n / 0x1_0000 % 0x100, n / 0x100 % 0x100, n % 0x100]
  }

  function Put64(n: nat): (b: seq<Byte>)
    ensures |b| == 8
  {
    Put32(n / TWO_32) + Put32(n)
  }

  function Get16(b: seq<Byte>): (n: nat)
    requires |b| >= 2
    ensures n < 0x1_0000
  {
    var b0: nat, b1: nat := b[0], b[1];
    b0 * 0x100 + b1
  }

  function Get32(b: seq<Byte>): (n: nat)
    requires |b| >= 4
    ensures n < TWO_32
  {
    var b0: nat, b1: nat, b2: nat, b3: nat := b[0], b[1], b[2], b[3];
    b0 * 0x100_0000 + b1 * 0x1_0000 + b2 * 0x100 + b3
  }

  function Get64(b: seq<Byte>): (n: nat)
    requires |b| >= 8
    ensures n < TWO_64
  {
    Get32(b) * TWO_32 + Get32(b[4..])
  }

  lemma GetPut16(n: nat, s: seq<Byte>)
    requires n < 0x1_0000
    ensures Get16(Put16(n) + s) == n
  {
  }

  /** The four base-256 digits of a 32-bit integer. */
  lemma Digits32(n: nat)
    ensures n % TWO_32
      == n / 0x100_0000 % 0x100 * 0x100_0000 + n / 0x1_0000 % 0x100 * 0x1_0000 + n / 0x100 % 0x100 * 0x100 + n % 0x100
  {
    var q1 := n / 0x100;
    var q2 := q1 / 0x100;
    var q3 := q2 / 0x100;
    assert q2 == n / 0x1_0000;
    assert q3 == n / 0x100_0000;
    assert q3 / 0x100 == n / TWO_32;
  }

  lemma GetPut32(n: nat, s: seq<Byte>)
    ensures Get32(Put32(n) + s) == n % TWO_32
  {
    Digits32(n);
  }

  lemma GetPut64(n: nat, s: seq<Byte>)
    requires n < TWO_64
    ensures Get64(Put64(n) + s) == n
  {
    hide Put32, Get32;
    var b := Put64(n) + s;
    assert b == Put32(n / TWO_32) + (Put32(n) + s);
    GetPut32(n / TWO_32, Put32(n) + s);
    assert b[4..] == Put32(n) + s;
    GetPut32(n, s);
  }

  lemma Quotients(n: nat)
    ensures n / TWO_32 / 0x100_0000 == n / 0x100_0000_0000_0000
    ensures n / TWO_32 / 0x1_0000 == n / 0x1_0000_0000_0000
    ensures n / TWO_32 / 0x100 == n / 0x100_0000_0000
  {
  }

  /** Byte `k` of each encoding counts down from the most significant one. */
  lemma MostSignificantFirst(n: nat)
    ensures Put16(n) == [n / 256 % 256, n % 256]
    ensures Put32(n)[0] == n / 0x100_0000 % 256 && Put32(n)[1] == n / 0x1_0000 % 256
    ensures Put32(n)[2] == n / 0x100 % 256 && Put32(n)[3] == n % 256
    ensures Put64(n)[0] == n / 0x100_0000_0000_0000 % 256 && Put64(n)[1] == n / 0x1_0000_0000_0000 % 256
    ensures Put64(n)[2] == n / 0x100_0000_0000 % 256 && Put64(n)[3] == n / 0x1_0000_0000 % 256
    ensures Put64(n)[4..] == Put32(n)
  {
    Quotients(n);
  }
}
