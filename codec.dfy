/** A value codec: converts between a column type's Java value and its raw
    bytes. This is the codec the serializer's test uses to build and check
    key values; it lays values out as the CQL native protocol does
    (big-endian two's complement integers, one byte for a boolean, the
    characters themselves for ascii). */
module TestCodec {
  import opened Wrappers
  import opened JavaTypes
  import opened Schema

  /** The Java value a typed value decodes to. */
  datatype JavaValue = JString(s: JavaString) | JBoolean(b: bool) | JLong(l: Int64) | JInt(i: Int32)

  datatype CodecError =
    | TypeMismatch(t: ColumnType, v: JavaValue)   // the value is not of the column type's Java class
    | NotAscii(s: string)                         // an ascii value with a character outside 0..127
    | InvalidBytes(t: ColumnType, bytes: Bytes)   // bytes of the wrong length or content for the type

  function Pow256(w: nat): (r: int)
    ensures r >= 1
  {
    if w == 0 then 1 else 256 * Pow256(w - 1)
  }

  /** The `w` low-order bytes of `u`, most significant first. */
  function ToBigEndian(u: nat, w: nat): (r: Bytes)
    requires u < Pow256(w)
    ensures |r| == w
  {
    if w == 0 then [] else ToBigEndian(u / 256, w - 1) + [u % 256]
  }

  function FromBigEndian(bs: Bytes): (u: nat)
    ensures u < Pow256(|bs|)
  {
    if |bs| == 0 then 0 else 256 * FromBigEndian(bs[..|bs| - 1]) + bs[|bs| - 1]
  }

  lemma {:induction false} BigEndianRoundTrip(u: nat, w: nat)
    requires u < Pow256(w)
    ensures FromBigEndian(ToBigEndian(u, w)) == u
  {
    if w > 0 {
      var bs := ToBigEndian(u, w);
      assert bs[..|bs| - 1] == ToBigEndian(u / 256, w - 1);
      BigEndianRoundTrip(u / 256, w - 1);
    }
  }

  /** Two's complement on `w` bytes. */
  function EncodeSigned(x: int, w: nat): (r: Bytes)
    requires w > 0 && -Pow256(w) / 2 <= x < Pow256(w) / 2
    ensures |r| == w
  {
    ToBigEndian(if x >= 0 then x else x + Pow256(w), w)
  }

  function DecodeSigned(bs: Bytes): (x: int)
    requires |bs| > 0
    ensures -Pow256(|bs|) / 2 <= x < Pow256(|bs|) / 2
  {
    var u := FromBigEndian(bs);
    if u >= Pow256(|bs|) / 2 then u - Pow256(|bs|) else u
  }

  lemma SignedRoundTrip(x: int, w: nat)
    requires w > 0 && -Pow256(w) / 2 <= x < Pow256(w) / 2
    ensures DecodeSigned(EncodeSigned(x, w)) == x
  {
    BigEndianRoundTrip(if x >= 0 then x else x + Pow256(w), w);
  }

  lemma Pow256Values()
    ensures Pow256(4) == TWO_POW_32 && Pow256(8) == 2 * TWO_POW_63
  {
    assert Pow256(1) == 256;
    assert Pow256(2) == 65536;
    assert Pow256(4) == 256 * (256 * Pow256(2));
    assert Pow256(8) == 256 * (256 * (256 * (256 * Pow256(4))));
  }

  function AsciiBytes(s: string): (r: Bytes)
    requires forall i :: 0 <= i < |s| ==> s[i] as int < 128
    ensures |r| == |s|
    ensures forall i :: 0 <= i < |s| ==> r[i] == s[i] as int
  {
    seq(|s|, i requires 0 <= i < |s| => s[i] as int)
  }

  function AsciiChars(bs: Bytes): (r: string)
    requires forall i :: 0 <= i < |bs| ==> bs[i] < 128
    ensures |r| == |bs|
    ensures forall i :: 0 <= i < |bs| ==> r[i] as int == bs[i]
  {
    seq(|bs|, i requires 0 <= i < |bs| => bs[i] as char)
  }

  /** `Codec.encode`: the raw bytes of a Java value of the given type. */
  function Encode(t: ColumnType, v: JavaValue): (r: Result<Bytes, CodecError>)
    ensures r.Err? <==> (
      || (t == Ascii && (!v.JString? || exists i :: 0 <= i < |v.s| && v.s[i] as int >= 128))
      || (t == Boolean && !v.JBoolean?)
      || (t == Counter && !v.JLong?)
      || (t == Int && !v.JInt?))
    ensures r.Ok? ==> |r.value| < TWO_POW_31
    ensures r.Ok? && t == Int ==> |r.value| == 4
    ensures r.Ok? && t == Counter ==> |r.value| == 8
    ensures r.Ok? && t == Boolean ==> |r.value| == 1
  {
    match (t, v)
    case (Ascii, JString(s)) =>
      if forall i :: 0 <= i < |s| ==> s[i] as int < 128 then Ok(AsciiBytes(s)) else Err(NotAscii(s))
    case (Boolean, JBoolean(b)) => Ok([if b then 1 else 0])
    case (Counter, JLong(l)) => Pow256Values(); Ok(EncodeSigned(l, 8))
    case (Int, JInt(i)) => Pow256Values(); Ok(EncodeSigned(i, 4))
    case _ => Err(TypeMismatch(t, v))
  }

  /** `Codec.decode`: the Java value held by raw bytes of the given type. */
  function Decode(t: ColumnType, bs: Bytes): (r: Result<JavaValue, CodecError>)
    ensures r.Ok? ==> match t
      case Ascii => r.value.JString?
      case Boolean => r.value.JBoolean?
      case Counter => r.value.JLong?
      case Int => r.value.JInt?
  {
    match t
    case Ascii =>
      if (forall i :: 0 <= i < |bs| ==> bs[i] < 128) && |bs| < TWO_POW_31 then Ok(JString(AsciiChars(bs)))
      else Err(InvalidBytes(t, bs))
    case Boolean =>
      if |bs| == 1 then Ok(JBoolean(bs[0] != 0)) else Err(InvalidBytes(t, bs))
    case Counter =>
      if |bs| == 8 then Pow256Values(); Ok(JLong(DecodeSigned(bs))) else Err(InvalidBytes(t, bs))
    case Int =>
      if |bs| == 4 then Pow256Values(); Ok(JInt(DecodeSigned(bs))) else Err(InvalidBytes(t, bs))
  }

  /** Decoding what was encoded, with the same type, gives the value back. */
  lemma {:induction false} CodecRoundTrip(t: ColumnType, v: JavaValue)
    requires Encode(t, v).Ok?
    ensures Decode(t, Encode(t, v).value) == Ok(v)
  {
    Pow256Values();
    match (t, v)
    case (Ascii, JString(s)) =>
      var bs := Encode(t, v).value;
      assert AsciiChars(bs) == s;
    case (Boolean, JBoolean(b)) =>
    case (Counter, JLong(l)) => SignedRoundTrip(l, 8);
    case (Int, JInt(i)) => SignedRoundTrip(i, 4);
  }
}
