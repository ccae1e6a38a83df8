/** Fixed-offset little-endian records: writing fields into reserved memory whose
    old bytes are arbitrary, and reading them back. */
module Wire {
  import opened Bpf

  type byte = b: int | 0 <= b < 256

  function Pow256(n: nat): (p: nat)
    ensures p >= 1
  {
    if n == 0 then 1 else 256 * Pow256(n - 1)
  }

  /** The n low bytes of v, least significant first. */
  function Encode(v: nat, n: nat): (bytes: seq<byte>)
    ensures |bytes| == n
  {
    if n == 0 then [] else [v % 256] + Encode(v / 256, n - 1)
  }

  function Decode(bytes: seq<byte>): nat {
    if bytes == [] then 0 else bytes[0] + 256 * Decode(bytes[1..])
  }

  lemma {:induction false} DecodeEncode(v: nat, n: nat)
    requires v < Pow256(n)
    ensures Decode(Encode(v, n)) == v
  {
    if n > 0 {
      assert v / 256 < Pow256(n - 1);
      DecodeEncode(v / 256, n - 1);
      assert Encode(v, n)[1..] == Encode(v / 256, n - 1);
    }
  }

  /** And the other way round: n bytes and the numbers below 256^n are in bijection. */
  lemma {:induction false} EncodeDecode(bytes: seq<byte>)
    ensures Decode(bytes) < Pow256(|bytes|) && Encode(Decode(bytes), |bytes|) == bytes
  {
    if bytes != [] {
      EncodeDecode(bytes[1..]);
      assert bytes == [bytes[0]] + bytes[1..];
    }
  }

  lemma Widths()
    ensures Pow256(1) == 256 && Pow256(4) == TWO32 && Pow256(8) == TWO64
  {
    assert Pow256(2) == 0x1_0000;
    assert Pow256(4) == TWO32;
    assert Pow256(6) == 0x1_0000_0000_0000;
  }

  /** The signed reading of a u64, two's complement. */
  function Signed(u: nat): int {
    if u < 0x8000_0000_0000_0000 then u else u - TWO64
  }

  /** The u64 with the same bits as a signed 64-bit value. */
  function Bits(i: int): nat
    requires -0x8000_0000_0000_0000 <= i < 0x8000_0000_0000_0000
  {
    if i >= 0 then i else i + TWO64
  }

  // ---- fields at offsets ----

  function Get(r: seq<byte>, off: nat, n: nat): seq<byte>
    requires off + n <= |r|
  {
    r[off..off + n]
  }

  function U32At(r: seq<byte>, off: nat): nat requires off + 4 <= |r| { Decode(Get(r, off, 4)) }
  function U64At(r: seq<byte>, off: nat): nat requires off + 8 <= |r| { Decode(Get(r, off, 8)) }

  /** The fields are little-endian. */
  lemma LittleEndian(r: seq<byte>, off: nat)
    ensures off + 4 <= |r| ==>
      var b0: nat, b1: nat, b2: nat, b3: nat := r[off], r[off + 1], r[off + 2], r[off + 3];
      U32At(r, off) == b0 + 0x100 * b1 + 0x1_0000 * b2 + 0x100_0000 * b3 < TWO32
    ensures off + 8 <= |r| ==> U64At(r, off) == U32At(r, off) + TWO32 * U32At(r, off + 4) < TWO64
  {
    if off + 8 <= |r| { FourBytes(Get(r, off, 8)); FourBytes(Get(r, off, 8)[4..]); }
    if off + 4 <= |r| { FourBytes(Get(r, off, 4)); }
    if off + 8 <= |r| {
      assert Get(r, off + 4, 4) == Get(r, off, 8)[4..];
      FourBytes(Get(r, off + 4, 4));
    }
  }

  lemma FourBytes(b: seq<byte>)
    requires |b| >= 4
    ensures var b0: nat, b1: nat, b2: nat, b3: nat := b[0], b[1], b[2], b[3];
      Decode(b) == b0 + 0x100 * b1 + 0x1_0000 * b2 + 0x100_0000 * b3 + TWO32 * Decode(b[4..])
  {
    TwoBytes(b);
    TwoBytes(b[2..]);
    assert b[2..][2..] == b[4..] && b[2..][0] == b[2] && b[2..][1] == b[3];
  }

  lemma TwoBytes(b: seq<byte>)
    requires |b| >= 2
    ensures var b0: nat, b1: nat := b[0], b[1]; Decode(b) == b0 + 0x100 * b1 + 0x1_0000 * Decode(b[2..])
  {
    assert b[1..][1..] == b[2..];
  }

  function Put(r: seq<byte>, off: nat, bytes: seq<byte>): (r': seq<byte>)
    requires off + |bytes| <= |r|
    ensures |r'| == |r|
  {
    r[..off] + bytes + r[off + |bytes|..]
  }

  lemma GetPast(r: seq<byte>, off: nat, bytes: seq<byte>, o: nat, n: nat)
    requires off + |bytes| <= |r| && o + n <= |r| && (o + n <= off || off + |bytes| <= o)
    ensures Get(Put(r, off, bytes), o, n) == Get(r, o, n)
  {
  }

  /** A store is read back where it was made and nowhere else. */
  lemma PutOnly(r: seq<byte>, off: nat, bytes: seq<byte>)
    requires off + |bytes| <= |r|
    ensures Get(Put(r, off, bytes), off, |bytes|) == bytes
    ensures forall o: nat, n: nat {:trigger Get(Put(r, off, bytes), o, n)} ::
      o + n <= |r| && (o + n <= off || off + |bytes| <= o) ==> Get(Put(r, off, bytes), o, n) == Get(r, o, n)
  {
    forall o: nat, n: nat | o + n <= |r| && (o + n <= off || off + |bytes| <= o)
      ensures Get(Put(r, off, bytes), o, n) == Get(r, o, n)
    {
      GetPast(r, off, bytes, o, n);
    }
  }

  lemma GetGet(r: seq<byte>, off: nat, n: nat, o: nat, m: nat)
    requires off + n <= |r| && o + m <= n
    ensures Get(Get(r, off, n), o, m) == Get(r, off + o, m)
  {
    forall i | 0 <= i < m ensures Get(Get(r, off, n), o, m)[i] == Get(r, off + o, m)[i] {
      assert Get(r, off, n)[o + i] == r[off + o + i];
    }
  }

  /** Stores bytes into a record in place. */
  method Write(r: array<byte>, off: nat, bytes: seq<byte>)
    requires off + |bytes| <= r.Length
    modifies r
    ensures r[..] == Put(old(r[..]), off, bytes)
  {
    forall i | 0 <= i < |bytes| { r[off + i] := bytes[i]; }
  }

  // ---- NUL-terminated text ----

  function IndexByte(b: seq<byte>, c: byte): (i: int)
    ensures -1 <= i < |b|
    ensures i >= 0 ==> b[i] == c && forall k :: 0 <= k < i ==> b[k] != c
    ensures i == -1 ==> forall k :: 0 <= k < |b| ==> b[k] != c
  {
    if b == [] then -1
    else if b[0] == c then 0
    else
      var rest := IndexByte(b[1..], c);
      if rest == -1 then -1 else rest + 1
  }

  function CString(b: seq<byte>): seq<byte> {
    var i := IndexByte(b, 0);
    if i == -1 then b else b[..i]
  }

  /** Text, its NUL and whatever follows read back as the text. */
  lemma CStringReads(name: seq<byte>, rest: seq<byte>)
    requires 0 !in name
    ensures CString(name + [0] + rest) == name && CString(name) == name
  {
    var b := name + [0] + rest;
    var i := IndexByte(b, 0);
    assert b[|name|] == 0;
    assert b[..|name|] == name;
    assert i == |name|;
  }
}
