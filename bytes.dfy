/** Byte-level helpers shared by every protocol module: the wire integers of
    common.h (big-endian 16- and 32-bit fields, the htons/htonl byte swaps of the
    little-endian target), ASCII text as bytes, and the single primitive every
    in-place header write is built from: `Put`, which overwrites a span of a
    byte buffer, and `Write`, the loop (memcpy) that performs it on an array. */
module Bytes {

  /** Size of every packet buffer (common.h:9): Ethernet header, maximum MTU and CRC. */
  const MaxPacketSize: nat := 1522

  const HwAddLength: nat := 6
  const IpAddLength: nat := 4

  /** A hardware (MAC) address and an IPv4 address, as the byte arrays the
      source keeps them in. */
  type MacAddress = s: seq<bv8> | |s| == HwAddLength witness [0, 0, 0, 0, 0, 0]
  type IpAddress = s: seq<bv8> | |s| == IpAddLength witness [0, 0, 0, 0]

  /** A value that may be absent: a parse that fails, a lookup that misses. */
  datatype Option<T> = None | Some(value: T)

  /** A 16-bit field as it is stored on the wire (most significant byte first). */
  function BE16(v: bv16): (r: seq<bv8>)
    ensures |r| == 2
  {
    [(v >> 8) as bv8, (v & 0xFF) as bv8]
  }

  /** Reads a big-endian 16-bit field. */
  function U16(s: seq<bv8>): bv16
    requires |s| == 2
  {
    (s[0] as bv16 << 8) | s[1] as bv16
  }

  /** A 32-bit field as it is stored on the wire (most significant byte first). */
  function BE32(v: bv32): (r: seq<bv8>)
    ensures |r| == 4
  {
    [(v >> 24) as bv8, ((v >> 16) & 0xFF) as bv8, ((v >> 8) & 0xFF) as bv8, (v & 0xFF) as bv8]
  }

  /** Reads a big-endian 32-bit field. */
  function U32(s: seq<bv8>): bv32
    requires |s| == 4
  {
    (s[0] as bv32 << 24) | (s[1] as bv32 << 16) | (s[2] as bv32 << 8) | s[3] as bv32
  }

  lemma BE16Inverse(v: bv16)
    ensures U16(BE16(v)) == v
  {
  }

  lemma U16Inverse(s: seq<bv8>)
    requires |s| == 2
    ensures BE16(U16(s)) == s
  {
    assert BE16(U16(s))[0] == s[0];
    assert BE16(U16(s))[1] == s[1];
  }

  lemma BE32Inverse(v: bv32)
    ensures U32(BE32(v)) == v
  {
  }

  lemma U32Inverse(s: seq<bv8>)
    requires |s| == 4
    ensures BE32(U32(s)) == s
  {
    var r := BE32(U32(s));
    assert r[0] == s[0] && r[1] == s[1] && r[2] == s[2] && r[3] == s[3];
  }

  /** htons on the little-endian target (common.h:28): swaps the two bytes. */
  function Htons(v: bv16): bv16
  {
    (v << 8) | (v >> 8)
  }

  /** htonl on the little-endian target (common.h:29): reverses the four bytes. */
  function Htonl(v: bv32): bv32
  {
    ((v & 0xFF) << 24) | (((v >> 8) & 0xFF) << 16) | (((v >> 16) & 0xFF) << 8) | (v >> 24)
  }

  /** How a 32-bit value lies in memory on the little-endian target: the byte
      view of the `ipconv` union (common.h:97-101). */
  function LE32(v: bv32): (r: seq<bv8>)
    ensures |r| == 4
  {
    [(v & 0xFF) as bv8, ((v >> 8) & 0xFF) as bv8, ((v >> 16) & 0xFF) as bv8, (v >> 24) as bv8]
  }

  /** Storing htonl(v) natively puts v on the wire in network order. */
  lemma HtonlInMemory(v: bv32)
    ensures LE32(Htonl(v)) == BE32(v)
  {
  }

  lemma HtonlInvolution(v: bv32)
    ensures Htonl(Htonl(v)) == v
  {
  }

  lemma HtonsInvolution(v: bv16)
    ensures Htons(Htons(v)) == v
  {
  }

  /** The low 8 bits of `n`: what a uint8_t keeps of a value assigned to it.
      Counting up in 8-bit arithmetic, rather than converting, keeps the
      conversion from integers to bit-vectors out of the proofs. */
  function Byte(n: nat): bv8
  {
    if n == 0 then 0 else Byte(n - 1) + 1
  }

  lemma {:induction false} ByteValue(n: nat)
    requires n < 0x100
    ensures Byte(n) as nat == n
  {
    if n > 0 {
      ByteValue(n - 1);
      var b := Byte(n - 1);
      assert b as nat == n - 1;
      assert b < 0xFF;
    }
  }

  /** A count or length stored in a 16-bit wire field: the low 16 bits of `n`,
      most significant byte first (htons of a uint16_t, stored natively). */
  function BE16N(n: nat): (r: seq<bv8>)
    ensures |r| == 2
  {
    [Byte(n / 0x100 % 0x100), Byte(n % 0x100)]
  }

  /** The value of a 16-bit wire field as a count. */
  function Num16(s: seq<bv8>): nat
    requires |s| == 2
  {
    s[0] as nat * 0x100 + s[1] as nat
  }

  /** A 32-bit counter (a TCP sequence number) as it lies on the wire: the low
      32 bits of `n`, most significant byte first. */
  function BE32N(n: nat): (r: seq<bv8>)
    ensures |r| == 4
  {
    BE16N(n / 0x1_0000 % 0x1_0000) + BE16N(n % 0x1_0000)
  }

  function Num32(s: seq<bv8>): nat
    requires |s| == 4
  {
    Num16(s[..2]) * 0x1_0000 + Num16(s[2..])
  }

  lemma Num16Inverse(n: nat)
    requires n < 0x1_0000
    ensures Num16(BE16N(n)) == n
  {
    var h, l := n / 0x100, n % 0x100;
    assert n == h * 0x100 + l;
    assert h < 0x100;
    assert h % 0x100 == h;
    ByteValue(h);
    ByteValue(l);
  }

  lemma Num32Inverse(n: nat)
    requires n < 0x1_0000_0000
    ensures Num32(BE32N(n)) == n
  {
    var h, l := n / 0x1_0000, n % 0x1_0000;
    assert n == h * 0x1_0000 + l;
    assert h < 0x1_0000;
    assert h % 0x1_0000 == h;
    Num16Inverse(h);
    Num16Inverse(l);
    var r := BE32N(n);
    assert r[..2] == BE16N(h) && r[2..] == BE16N(l);
  }

  /** Text as the bytes of a C string (without its NUL). */
  function Str(s: string): (r: seq<bv8>)
    requires forall i :: 0 <= i < |s| ==> s[i] as int < 256
    ensures |r| == |s|
  {
    seq(|s|, i requires 0 <= i < |s| => (s[i] as int) as bv8)
  }

  /** `n` copies of `v` (the memset and fill loops). */
  function Fill(n: nat, v: bv8): (r: seq<bv8>)
    ensures |r| == n
    ensures forall k :: 0 <= k < n ==> r[k] == v
  {
    seq(n, _ => v)
  }

  /** A slice of a slice is a slice. */
  lemma SliceOfSlice(s: seq<bv8>, i: nat, j: nat, a: nat, b: nat)
    requires i <= j <= |s| && a <= b <= j - i
    ensures s[i..j][a..b] == s[i + a..i + b]
  {
    forall k | 0 <= k < b - a ensures s[i..j][a..b][k] == s[i + a..i + b][k] { }
  }

  /** A slice of a prefix is a slice. */
  lemma SliceOfPrefix(s: seq<bv8>, n: nat, a: nat, b: nat)
    requires a <= b <= n <= |s|
    ensures s[..n][a..b] == s[a..b]
  {
    forall k | 0 <= k < b - a ensures s[..n][a..b][k] == s[a..b][k] { }
  }

  /** The end of a prefix is a slice. */
  lemma SliceOfSuffix(s: seq<bv8>, a: nat, i: nat, j: nat)
    requires a <= |s| && i <= j <= |s| - a
    ensures s[a..][i..j] == s[a + i..a + j]
  {
    forall k | 0 <= k < j - i ensures s[a..][i..j][k] == s[a + i..a + j][k] { }
  }

  lemma SuffixOfPrefix(s: seq<bv8>, n: nat, a: nat)
    requires a <= n <= |s|
    ensures s[..n][a..] == s[a..n]
  {
    forall k | 0 <= k < n - a ensures s[..n][a..][k] == s[a..n][k] { }
  }

  /** The buffer `s` after the bytes `x` have been written at offset `off`.
      PutAt, PutPart and PutOut say what it holds where. */
  function Put(s: seq<bv8>, off: nat, x: seq<bv8>): (r: seq<bv8>)
    requires off + |x| <= |s|
    ensures |r| == |s|
  {
    s[..off] + x + s[off + |x|..]
  }

  lemma PutAt(s: seq<bv8>, off: nat, x: seq<bv8>, k: nat)
    requires off + |x| <= |s| && k < |s|
    ensures Put(s, off, x)[k] == if off <= k < off + |x| then x[k - off] else s[k]
  {
  }

  /** A part of the written bytes reads back. */
  lemma PutPart(s: seq<bv8>, off: nat, x: seq<bv8>, i: nat, j: nat)
    requires off <= i <= j <= off + |x| <= |s|
    ensures Put(s, off, x)[i..j] == x[i - off..j - off]
  {
    var r := Put(s, off, x);
    assert r[off..off + |x|] == x;
  }

  /** Writing `y` straight after `x` from the start of a buffer writes `x + y`. */
  lemma PutAfter(s: seq<bv8>, x: seq<bv8>, y: seq<bv8>)
    requires |x| + |y| <= |s|
    ensures Put(Put(s, 0, x), |x|, y) == Put(s, 0, x + y)
  {
    var r := Put(s, 0, x);
    assert r[..|x|] == x;
    assert r[|x| + |y|..] == s[|x| + |y|..];
  }

  /** Writing `y` straight after `x` writes `x + y`. */
  lemma PutAfterAt(s: seq<bv8>, off: nat, x: seq<bv8>, y: seq<bv8>)
    requires off + |x| + |y| <= |s|
    ensures Put(Put(s, off, x), off + |x|, y) == Put(s, off, x + y)
  {
    var r := Put(s, off, x);
    assert r[..off + |x|] == s[..off] + x;
    assert r[off + |x| + |y|..] == s[off + |x| + |y|..];
  }

  /** Bytes outside the written span are untouched. */
  lemma PutOut(s: seq<bv8>, off: nat, x: seq<bv8>, i: nat, j: nat)
    requires off + |x| <= |s| && i <= j <= |s| && (j <= off || off + |x| <= i)
    ensures Put(s, off, x)[i..j] == s[i..j]
  {
    var r := Put(s, off, x);
    if j <= off {
      assert r[i..j] == (s[..off])[i..j];
    } else {
      assert r[i..j] == s[off + |x|..][i - off - |x|..j - off - |x|];
    }
  }

  /** The buffer with the `n`-byte spans at `i` and `j` exchanged (the swap
      loops). SwapAt and SwapOut say what it holds where. */
  function Swap(s: seq<bv8>, i: nat, j: nat, n: nat): (r: seq<bv8>)
    requires i + n <= j && j + n <= |s|
    ensures |r| == |s|
  {
    s[..i] + s[j..j + n] + s[i + n..j] + s[i..i + n] + s[j + n..]
  }

  lemma SwapAt(s: seq<bv8>, i: nat, j: nat, n: nat, m: nat)
    requires i + n <= j && j + n <= |s| && m < |s|
    ensures Swap(s, i, j, n)[m] == if i <= m < i + n then s[m + (j - i)] else if j <= m < j + n then s[m - (j - i)] else s[m]
  {
  }

  /** A buffer that agrees with Swap byte by byte is Swap. */
  lemma SwapPointwise(s: seq<bv8>, r: seq<bv8>, i: nat, j: nat, n: nat)
    requires i + n <= j && j + n <= |s| == |r|
    requires forall m :: i <= m < i + n ==> r[m] == s[m + (j - i)]
    requires forall m :: j <= m < j + n ==> r[m] == s[m - (j - i)]
    requires forall m :: 0 <= m < |s| && !(i <= m < i + n) && !(j <= m < j + n) ==> r[m] == s[m]
    ensures r == Swap(s, i, j, n)
  {
    forall m | 0 <= m < |s| ensures r[m] == Swap(s, i, j, n)[m] { SwapAt(s, i, j, n, m); }
  }

  /** The two spans change places. */
  lemma SwapSpansMoved(s: seq<bv8>, i: nat, j: nat, n: nat)
    requires i + n <= j && j + n <= |s|
    ensures Swap(s, i, j, n)[i..i + n] == s[j..j + n] && Swap(s, i, j, n)[j..j + n] == s[i..i + n]
  {
    var r := Swap(s, i, j, n);
    assert r[i..i + n] == s[j..j + n] by {
      forall m | i <= m < i + n ensures r[m] == s[m + (j - i)] { SwapAt(s, i, j, n, m); }
    }
    assert r[j..j + n] == s[i..i + n] by {
      forall m | j <= m < j + n ensures r[m] == s[m - (j - i)] { SwapAt(s, i, j, n, m); }
    }
  }

  /** Bytes outside both spans are untouched. */
  lemma SwapOut(s: seq<bv8>, i: nat, j: nat, n: nat, lo: nat, hi: nat)
    requires i + n <= j && j + n <= |s| && lo <= hi <= |s|
    requires (hi <= i || i + n <= lo) && (hi <= j || j + n <= lo)
    ensures Swap(s, i, j, n)[lo..hi] == s[lo..hi]
  {
    var r := Swap(s, i, j, n);
    forall m | lo <= m < hi ensures r[m] == s[m] { SwapAt(s, i, j, n, m); }
  }

  /** memcpy(&a[off], x, |x|). */
  method Write(a: array<bv8>, off: nat, x: seq<bv8>)
    requires off + |x| <= a.Length
    modifies a
    ensures a[..] == Put(old(a[..]), off, x)
  {
    var k := 0;
    while k < |x|
      invariant 0 <= k <= |x|
      invariant forall m :: 0 <= m < a.Length ==>
        a[m] == if off <= m < off + k then x[m - off] else old(a[m])
    {
      a[off + k] := x[k];
      k := k + 1;
    }
    forall m | 0 <= m < a.Length ensures a[m] == Put(old(a[..]), off, x)[m] {
      PutAt(old(a[..]), off, x, m);
    }
  }

  /** Exchanges two disjoint `n`-byte spans element by element, as the
      address-swap loops of the reply path do. */
  method SwapSpans(a: array<bv8>, i: nat, j: nat, n: nat)
    requires i + n <= j && j + n <= a.Length
    modifies a
    ensures a[..] == Swap(old(a[..]), i, j, n)
  {
    var k := 0;
    ghost var d := j - i;
    while k < n
      invariant 0 <= k <= n
      invariant forall m :: i <= m < i + k ==> a[m] == old(a[m + d])
      invariant forall m :: j <= m < j + k ==> a[m] == old(a[m - d])
      invariant forall m :: 0 <= m < a.Length && !(i <= m < i + k) && !(j <= m < j + k) ==> a[m] == old(a[m])
    {
      var tmp := a[i + k];
      a[i + k] := a[j + k];
      a[j + k] := tmp;
      k := k + 1;
    }
    SwapPointwise(old(a[..]), a[..], i, j, n);
  }
}
