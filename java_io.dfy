/**
 * The JVM primitives the streaming code relies on: bytes, byte arrays and
 * `java.io.DataOutputStream`'s `writeInt`/`write`.
 */
module JavaIo {
  /** A Kotlin `Byte`, as its 8-bit pattern read unsigned. */
  newtype Byte = b: int | 0 <= b < 0x100

  /** The largest length a JVM array may have (`Int.MAX_VALUE`). */
  const MaxArrayLength: nat := 0x7FFF_FFFF

  /** The contents of a Kotlin `ByteArray`: its length is a non-negative `Int`. */
  type ByteArray = s: seq<Byte> | |s| <= MaxArrayLength witness []

  /** The values of a Kotlin/Java `Int`. */
  predicate IsJavaInt(v: int)
  {
    -0x8000_0000 <= v < 0x8000_0000
  }

  /** The number that four bytes denote when read high byte first. */
  function BigEndianValue(b: seq<Byte>): (n: nat)
    requires |b| == 4
    ensures n < 0x1_0000_0000
  {
    ((b[0] as nat * 0x100 + b[1] as nat) * 0x100 + b[2] as nat) * 0x100 + b[3] as nat
  }

  /**
   * The four bytes `DataOutputStream.writeInt(v)` emits: the 32-bit two's
   * complement pattern of `v`, high byte first.
   */
  function IntBytes(v: int): (r: seq<Byte>)
    requires IsJavaInt(v)
    ensures |r| == 4
    ensures BigEndianValue(r) == v % 0x1_0000_0000
    ensures 0 <= v ==> BigEndianValue(r) == v
  {
    var u := v % 0x1_0000_0000;
    Digits(u);
    [(u / 0x100_0000) as Byte, (u / 0x1_0000 % 0x100) as Byte, (u / 0x100 % 0x100) as Byte, (u % 0x100) as Byte]
  }

  /** A 32-bit number is its four base-256 digits, most significant first. */
  lemma Digits(u: nat)
    requires u < 0x1_0000_0000
    ensures u / 0x100_0000 < 0x100
    ensures u == ((u / 0x100_0000 * 0x100 + u / 0x1_0000 % 0x100) * 0x100 + u / 0x100 % 0x100) * 0x100 + u % 0x100
  {
    var q1 := u / 0x100;
    var q2 := q1 / 0x100;
    assert u / 0x1_0000 == q2;
    assert u / 0x100_0000 == q2 / 0x100;
    assert q2 == q2 / 0x100 * 0x100 + q2 % 0x100;
    assert q1 == q2 * 0x100 + q1 % 0x100;
  }

  /** The bytes written so far to a `DataOutputStream` over a client socket. */
  class DataOutputStream {
    var written: seq<Byte>

    constructor ()
      ensures written == []
    {
      written := [];
    }

    /** `writeInt`: four bytes, high byte first. */
    method WriteInt(v: int)
      requires IsJavaInt(v)
      modifies this
      ensures written == old(written) + IntBytes(v)
    {
      written := written + IntBytes(v);
    }

    /** `write(ByteArray)`: the whole array, unchanged. */
    method Write(b: ByteArray)
      modifies this
      ensures written == old(written) + b
    {
      written := written + b;
    }
  }
}
