/** Little-endian byte strings (into_format, bigint_as_bytes in constraint_writers/src/r1cs_writer.rs,
    from_format in r1cs_reader.rs). */
module Bytes {

  type byte = b: int | 0 <= b < 256

  function Power(w: nat): (r: nat)
    ensures r > 0
  {
    if w == 0 then 1 else 256 * Power(w - 1)
  }

  /** The shortest little-endian form; zero is one byte. */
  function ToBytes(n: nat): (r: seq<byte>)
    ensures |r| > 0
  {
    if n < 256 then [n] else [n % 256] + ToBytes(n / 256)
  }

  function FromBytes(bytes: seq<byte>): nat {
    if bytes == [] then 0 else bytes[0] + 256 * FromBytes(bytes[1..])
  }

  function Zeros(n: nat): (r: seq<byte>)
    ensures |r| == n
  {
    seq(n, _ => 0)
  }

  /** Padded with zeros up to a width, and never cut. */
  function Padded(bytes: seq<byte>, width: nat): seq<byte> {
    bytes + Zeros(if |bytes| < width then width - |bytes| else 0)
  }

  method IntoFormat(number: seq<byte>, withBytes: nat) returns (value: seq<byte>, size: nat)
    ensures value == Padded(number, withBytes) && size == |value|
  {
    value := number;
    while |value| < withBytes
      invariant value == number + Zeros(|value| - |number|) && |value| >= |number|
      invariant |value| <= withBytes || value == number
      decreases withBytes - |value|
    {
      value := value + [0];
    }
    size := |value|;
  }

  function Encode(n: nat, width: nat): seq<byte> {
    Padded(ToBytes(n), width)
  }

  method AsBytes(n: nat, withBytes: nat) returns (value: seq<byte>, size: nat)
    ensures value == Encode(n, withBytes) && size == |value|
  {
    value, size := IntoFormat(ToBytes(n), withBytes);
  }

  lemma {:induction false} FromToBytes(n: nat)
    ensures FromBytes(ToBytes(n)) == n
  {
    if n >= 256 {
      FromToBytes(n / 256);
      var tail := ToBytes(n / 256);
      assert ([n % 256] + tail)[1..] == tail;
    }
  }

  lemma {:induction false} FromZeros(n: nat)
    ensures FromBytes(Zeros(n)) == 0
  {
    if n > 0 {
      FromZeros(n - 1);
      assert Zeros(n)[1..] == Zeros(n - 1);
    }
  }

  lemma {:induction false} FromPadded(bytes: seq<byte>, n: nat)
    ensures FromBytes(bytes + Zeros(n)) == FromBytes(bytes)
  {
    if bytes == [] {
      FromZeros(n);
      assert bytes + Zeros(n) == Zeros(n);
    } else {
      FromPadded(bytes[1..], n);
      assert (bytes + Zeros(n))[1..] == bytes[1..] + Zeros(n);
    }
  }

  /** A number fits a width exactly when its shortest form does. */
  lemma {:induction false} Fits(n: nat, width: nat)
    requires width > 0
    ensures |ToBytes(n)| <= width <==> n < Power(width)
    decreases width
  {
    if n >= 256 {
      if width == 1 {
        assert Power(1) == 256 * Power(0);
      } else {
        Fits(n / 256, width - 1);
        DivideBelow(n, Power(width - 1));
      }
    } else {
      assert Power(width) == 256 * Power(width - 1);
    }
  }

  lemma DivideBelow(n: nat, bound: nat)
    ensures n / 256 < bound <==> n < 256 * bound
  {
  }

  /** A number that fits is written in exactly the width and read back. */
  lemma EncodeFits(n: nat, width: nat)
    requires width > 0 && n < Power(width)
    ensures |Encode(n, width)| == width && FromBytes(Encode(n, width)) == n
  {
    Fits(n, width);
    FromToBytes(n);
    FromPadded(ToBytes(n), width - |ToBytes(n)|);
  }

  /** And any bytes are the form, in their own width, of the number they give. */
  lemma {:induction false} EncodeFrom(bytes: seq<byte>)
    requires bytes != []
    ensures Encode(FromBytes(bytes), |bytes|) == bytes && FromBytes(bytes) < Power(|bytes|)
  {
    var n, rest := FromBytes(bytes), bytes[1..];
    if rest == [] {
      assert FromBytes(rest) == 0 && Power(1) == 256 * Power(0);
    } else {
      EncodeFrom(rest);
      var m := FromBytes(rest);
      assert n % 256 == bytes[0] && n / 256 == m;
      assert Power(|bytes|) == 256 * Power(|rest|);
      assert n < 256 ==> ToBytes(m) == [0];
      assert bytes == [bytes[0]] + rest;
    }
  }

  /** 256 in one byte takes two. */
  lemma TwoBytesFor256()
    ensures |Encode(256, 1)| == 2
  {
    assert ToBytes(256) == [0] + ToBytes(1);
  }

  /** A number that does not fit is written in full, longer than the width: the reader then loses its place. */
  lemma EncodeOverflows(n: nat, width: nat)
    requires width > 0
    ensures |Encode(n, width)| == width <==> n < Power(width)
  {
    Fits(n, width);
  }
}
