/** `inet_checksum` of app/tcpip/helpers.h: the Internet checksum of section 1 of RFC 1071. */
module Checksum {

  type byte = x: int | 0 <= x < 256

  const WORD: nat := 0x1_0000
  const WORD32: nat := 0x1_0000_0000

  /** The sum of the 16-bit big-endian words; an odd last byte is the upper half of a word. */
  function Sum16(d: seq<byte>): nat {
    if |d| == 0 then 0
    else if |d| == 1 then d[0] * 256
    else d[0] * 256 + d[1] + Sum16(d[2..])
  }

  /** An odd last byte counts as if a zero byte followed it. */
  lemma {:induction false} OddIsPadded(d: seq<byte>)
    requires |d| % 2 == 1
    ensures Sum16(d) == Sum16(d + [0])
    decreases |d|
  {
    if |d| > 1 {
      OddIsPadded(d[2..]);
      assert (d + [0])[2..] == d[2..] + [0];
    }
  }

  /** Number of 16-bit words. */
  function Words(d: seq<byte>): nat {
    (|d| + 1) / 2
  }

  lemma {:induction false} SumBound(d: seq<byte>)
    ensures Sum16(d) <= 65535 * Words(d)
    decreases |d|
  {
    if |d| > 1 { SumBound(d[2..]); }
  }

  /** Folding the carries back until the sum has 16 bits. */
  function Folded(s: nat): (r: nat)
    ensures r < WORD && r % 65535 == s % 65535 && (r == 0 <==> s == 0)
    decreases s
  {
    if s < WORD then s else FoldStep(s); Folded(s % WORD + s / WORD)
  }

  lemma FoldStep(s: nat)
    requires s >= WORD
    ensures 0 < s % WORD + s / WORD < s
    ensures (s % WORD + s / WORD) % 65535 == s % 65535
  {
    var lo, hi := s % WORD, s / WORD;
    assert s == lo + hi + 65535 * hi;
  }

  /** The checksum of data whose words add up to `s`. */
  function ChecksumOf(s: nat): (r: nat)
    ensures r < WORD
  {
    65535 - Folded(s)
  }

  /** A checksum of zero means: a sum that is a multiple of 65535 and not zero itself. */
  lemma ZeroMeans(s: nat)
    ensures ChecksumOf(s) == 0 <==> s > 0 && s % 65535 == 0
  {
  }

  /** Adding the checksum to the sum makes the checksum zero. */
  lemma SelfCheck(s: nat)
    ensures ChecksumOf(s + ChecksumOf(s)) == 0
  {
    var f := Folded(s);
    Congruent(s, f);
    ZeroMeans(s + (65535 - f));
  }

  lemma Congruent(s: nat, f: nat)
    requires f < WORD && f % 65535 == s % 65535
    ensures (s + (65535 - f)) % 65535 == 0
  {
    var a, b := s / 65535, f / 65535;
    assert s + (65535 - f) == 65535 * (a - b + 1);
  }

  /** Storing `c` in the zeroed 16-bit field at an even offset adds `c` to the sum. */
  lemma {:induction false} StoreField(d: seq<byte>, p: nat, c: nat)
    requires p % 2 == 0 && p + 1 < |d| && d[p] == 0 && d[p + 1] == 0 && c < WORD
    ensures Sum16(Stored(d, p, c)) == Sum16(d) + c
    decreases p
  {
    if p == 0 {
      assert Stored(d, p, c)[2..] == d[2..];
    } else {
      StoreField(d[2..], p - 2, c);
      assert Stored(d, p, c)[2..] == Stored(d[2..], p - 2, c);
    }
  }

  /** The data with `c` in the field at `p`, in network byte order. */
  function Stored(d: seq<byte>, p: nat, c: nat): seq<byte>
    requires p + 1 < |d| && c < WORD
  {
    d[p := c / 256][p + 1 := c % 256]
  }

  // ---- 32-bit sums -----------------------------------------------------------------------------

  lemma SumStep(d: seq<byte>, i: nat)
    requires i + 1 < |d|
    ensures Sum16(d[i..]) == d[i] * 256 + d[i + 1] + Sum16(d[i + 2..])
  {
    assert d[i..][2..] == d[i + 2..];
  }

  /** Addition in 32 bits. */
  function Add32(a: nat, b: nat): (r: nat)
    ensures r < WORD32
  {
    (a + b) % WORD32
  }

  lemma Add32Assoc(a: nat, b: nat, c: nat)
    ensures Add32(Add32(a, b), c) == Add32(a, b + c)
    ensures a < WORD32 ==> Add32(a, 0) == a
  {
  }

  /** Wrapping at 2^32 takes multiples of 2^32 away, and 2^32 is 1 modulo 65535. */
  lemma WrapModulo(s: nat)
    ensures s % 65535 == (s % WORD32 + s / WORD32) % 65535
  {
    assert s == s % WORD32 + s / WORD32 + 65535 * (65537 * (s / WORD32));
  }

  lemma EqualModulo(a: nat, b: nat)
    ensures (a + b) % 65535 == a % 65535 <==> b % 65535 == 0
  {
  }

  /** Checksums agree exactly when the sums agree modulo 65535 and in being zero. */
  lemma SameChecksum(a: nat, b: nat)
    ensures ChecksumOf(a) == ChecksumOf(b) <==> a % 65535 == b % 65535 && (a == 0 <==> b == 0)
  {
    FoldedValue(a);
    FoldedValue(b);
  }

  lemma FoldedValue(s: nat)
    ensures Folded(s) == if s == 0 then 0 else if s % 65535 == 0 then 65535 else s % 65535
  {
  }

  /** The wrapped sum gives the right checksum exactly in these cases. */
  lemma WrappedChecksum(s: nat)
    ensures ChecksumOf(s % WORD32) == ChecksumOf(s)
            <==> (s / WORD32) % 65535 == 0 && (s % WORD32 == 0 ==> s == 0)
  {
    WrapModulo(s);
    EqualModulo(s % WORD32, s / WORD32);
    SameChecksum(s % WORD32, s);
  }

  /** The value that `inet_checksum` returns. */
  function Inet(d1: seq<byte>, d2: seq<byte>): (r: nat)
    ensures r < WORD
  {
    ChecksumOf((Sum16(d1) + Sum16(d2)) % WORD32)
  }

  /** Adding its checksum to a 32-bit sum never makes it wrap. */
  lemma NoWrapByChecksum(w: nat)
    requires w < WORD32
    ensures w + ChecksumOf(w) < WORD32
  {
    var c := ChecksumOf(w);
    Congruent(w, Folded(w));
    var q := (w + c) / 65535;
    assert w + c == 65535 * q;
  }

  lemma AddBelowWrap(s: nat, c: nat)
    requires s % WORD32 + c < WORD32
    ensures (s + c) % WORD32 == s % WORD32 + c
  {
  }

  /** Even when the sum has wrapped, adding the checksum makes the checksum zero. */
  lemma {:induction false} WrappedSelfCheck(s: nat)
    ensures ChecksumOf((s + ChecksumOf(s % WORD32)) % WORD32) == 0
  {
    NoWrapByChecksum(s % WORD32);
    AddBelowWrap(s, ChecksumOf(s % WORD32));
    SelfCheck(s % WORD32);
  }

  /** With the checksum stored in the first buffer, recomputation gives zero, whatever the length. */
  lemma StoredInFirst(d1: seq<byte>, d2: seq<byte>, p: nat)
    requires p % 2 == 0 && p + 1 < |d1| && d1[p] == 0 && d1[p + 1] == 0
    ensures Inet(Stored(d1, p, Inet(d1, d2)), d2) == 0
  {
    StoreField(d1, p, Inet(d1, d2));
    WrappedSelfCheck(Sum16(d1) + Sum16(d2));
    assert Sum16(Stored(d1, p, Inet(d1, d2))) + Sum16(d2) == Sum16(d1) + Sum16(d2) + Inet(d1, d2);
  }

  /** The same for the second buffer. */
  lemma StoredInSecond(d1: seq<byte>, d2: seq<byte>, p: nat)
    requires p % 2 == 0 && p + 1 < |d2| && d2[p] == 0 && d2[p + 1] == 0
    ensures Inet(d1, Stored(d2, p, Inet(d1, d2))) == 0
  {
    StoreField(d2, p, Inet(d1, d2));
    WrappedSelfCheck(Sum16(d1) + Sum16(d2));
    assert Sum16(d1) + Sum16(Stored(d2, p, Inet(d1, d2))) == Sum16(d1) + Sum16(d2) + Inet(d1, d2);
  }

  /** Messages of at most 65537 words never wrap. */
  lemma {:induction false} ShortMessage(d1: seq<byte>, d2: seq<byte>)
    ensures Words(d1) + Words(d2) <= 65537 ==> Inet(d1, d2) == ChecksumOf(Sum16(d1) + Sum16(d2))
  {
    SumBound(d1);
    SumBound(d2);
    ShortSum(Sum16(d1), Words(d1), Sum16(d2), Words(d2));
  }

  lemma ShortSum(s1: nat, w1: nat, s2: nat, w2: nat)
    requires s1 <= 65535 * w1 && s2 <= 65535 * w2
    ensures w1 + w2 <= 65537 ==> (s1 + s2) % WORD32 == s1 + s2
  {
    assert s1 + s2 <= 65535 * (w1 + w2);
  }

  /** `n` words of ones. */
  function Ones(n: nat): seq<byte> {
    seq(2 * n, _ => 255)
  }

  lemma {:induction false} OnesSum(n: nat)
    ensures Sum16(Ones(n)) == 65535 * n && Words(Ones(n)) == n
  {
    if n > 0 {
      OnesSum(n - 1);
      assert Ones(n)[2..] == Ones(n - 1);
    }
  }

  /** From 65538 words on the sum can wrap to a wrong checksum: words of ones do. */
  lemma {:induction false} LongMessageFails(n: nat)
    requires 65538 <= n <= 131074
    ensures Inet(Ones(n), []) != ChecksumOf(Sum16(Ones(n)))
  {
    OnesSum(n);
    var s := 65535 * n;
    assert s / WORD32 == 1;
    WrappedChecksum(s);
  }

  /** One buffer, added to a 32-bit sum. */
  method AddBuffer(d: seq<byte>, start: nat) returns (sum: nat)
    requires |d| >= 1 && start < WORD32
    ensures sum == Add32(start, Sum16(d))
  {
    sum := start;
    var i := 0;
    assert d[0..] == d;
    while i < |d| - 1
      invariant i % 2 == 0 && i <= |d| && sum < WORD32 && Add32(sum, Sum16(d[i..])) == Add32(start, Sum16(d))
    {
      SumStep(d, i);
      var hi: nat, lo: nat := d[i], d[i + 1];
      Add32Assoc(sum, hi * 256 + lo, Sum16(d[i + 2..]));
      sum := Add32(sum, hi * 256 + lo);
      i := i + 2;
    }
    if |d| % 2 == 1 {
      assert d[i..] == [d[|d| - 1]];
      var last: nat := d[|d| - 1];
      sum := Add32(sum, last * 256);
    } else {
      Add32Assoc(sum, 0, 0);
    }
  }

  /** Both buffers; the second one may be missing. */
  method AddBuffers(d1: seq<byte>, d2: seq<byte>) returns (sum: nat)
    requires |d1| >= 1
    ensures sum == (Sum16(d1) + Sum16(d2)) % WORD32
  {
    sum := AddBuffer(d1, 0);
    Add32Assoc(0, Sum16(d1), Sum16(d2));
    if |d2| != 0 {
      sum := AddBuffer(d2, sum);
    }
  }

  /** `inet_checksum` of any message: the sum is taken in 32 bits, see `WrappedChecksum`. */
  method InetChecksum(d1: seq<byte>, d2: seq<byte>) returns (r: nat)
    requires |d1| >= 1
    ensures r == Inet(d1, d2)
    ensures Words(d1) + Words(d2) <= 65537 ==> r == ChecksumOf(Sum16(d1) + Sum16(d2))
  {
    var sum := AddBuffers(d1, d2);
    r := FoldSum(sum);
    ShortMessage(d1, d2);
  }

  /** The last loop of `inet_checksum`, and the complement. */
  method FoldSum(start: nat) returns (r: nat)
    ensures r == ChecksumOf(start)
  {
    var sum: nat := start;
    while sum / WORD != 0
      invariant Folded(sum) == Folded(start)
      decreases sum
    {
      FoldStep(sum);
      sum := sum % WORD + sum / WORD;
    }
    r := 65535 - sum;
  }
}
