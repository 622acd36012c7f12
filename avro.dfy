/** The primitive encodings of Apache Avro's binary format (Avro
    specification, "Binary Encoding"): zig-zag variable-length integers,
    length-prefixed UTF-8 strings and byte strings, and two-branch unions
    whose branch 0 is `null`. Each writer has a reader that is its left
    inverse; a reader answers the value and the bytes that follow it. */
module AvroBinary {
  import opened Wrappers
  import opened JavaTypes

  type Parsed<T> = Result<(T, Bytes), string>

  predicate IsInt64(x: int) { -TWO_POW_63 <= x < TWO_POW_63 }

  /** Zig-zag: small magnitudes, of either sign, become small naturals. */
  function ZigZag(n: int): (u: nat)
    ensures n >= 0 ==> u == 2 * n
    ensures n < 0 ==> u == -2 * n - 1
  {
    if n >= 0 then 2 * n else -2 * n - 1
  }

  function UnZigZag(u: nat): int
  {
    if u % 2 == 0 then u / 2 else -(u + 1) / 2
  }

  /** Base-128 digits, least significant first, the high bit marking that
      more digits follow. */
  function VarInt(u: nat): (r: Bytes)
    ensures |r| >= 1
    decreases u
  {
    if u < 128 then [u] else [128 + u % 128] + VarInt(u / 128)
  }

  function ReadVarInt(s: Bytes): (r: Parsed<nat>)
    ensures r.Ok? ==> |r.value.1| < |s|
    decreases |s|
  {
    if |s| == 0 then Err("truncated integer")
    else if s[0] < 128 then Ok((s[0], s[1..]))
    else
      var (high, rest) :- ReadVarInt(s[1..]);
      Ok((s[0] - 128 + 128 * high, rest))
  }

  lemma {:induction false} VarIntRoundTrip(u: nat, rest: Bytes)
    ensures ReadVarInt(VarInt(u) + rest) == Ok((u, rest))
    decreases u
  {
    if u >= 128 {
      VarIntRoundTrip(u / 128, rest);
      assert (VarInt(u) + rest)[1..] == VarInt(u / 128) + rest;
    }
  }

  /** Avro `long` (and `int`): zig-zag, then variable length. */
  function WriteLong(n: int): Bytes
  {
    VarInt(ZigZag(n))
  }

  /** Reads a `long`; a value outside Java's `long` range is rejected. */
  function ReadLong(s: Bytes): (r: Parsed<Int64>)
    ensures r.Ok? ==> |r.value.1| < |s|
  {
    var (u, rest) :- ReadVarInt(s);
    var n := UnZigZag(u);
    if IsInt64(n) then Ok((n, rest)) else Err("long out of range")
  }

  /** Reads an `int`; a value outside Java's `int` range is rejected. */
  function ReadInt(s: Bytes): (r: Parsed<Int32>)
    ensures r.Ok? ==> |r.value.1| < |s|
  {
    var (n, rest) :- ReadLong(s);
    if IsInt32(n) then Ok((n, rest)) else Err("int out of range")
  }

  lemma LongRoundTrip(n: Int64, rest: Bytes)
    ensures ReadLong(WriteLong(n) + rest) == Ok((n, rest))
  {
    VarIntRoundTrip(ZigZag(n), rest);
  }

  lemma IntRoundTrip(n: Int32, rest: Bytes)
    ensures ReadInt(WriteLong(n) + rest) == Ok((n, rest))
  {
    LongRoundTrip(n, rest);
  }

  // UTF-8 (RFC 3629), the character encoding of Avro strings.

  predicate IsContinuation(b: Byte) { 0x80 <= b < 0xC0 }

  function EncodeChar(c: char): (r: Bytes)
    ensures 1 <= |r| <= 4
  {
    var n := c as int;
    if n < 0x80 then [n]
    else if n < 0x800 then [0xC0 + n / 64, 0x80 + n % 64]
    else if n < 0x1_0000 then [0xE0 + n / 4096, 0x80 + (n / 64) % 64, 0x80 + n % 64]
    else [0xF0 + n / 262144, 0x80 + (n / 4096) % 64, 0x80 + (n / 64) % 64, 0x80 + n % 64]
  }

  /** A scalar value into a character; surrogates and values past
      U+10FFFF are rejected. */
  function ScalarToChar(n: int, rest: Bytes): Parsed<char>
  {
    if 0 <= n < 0xD800 || 0xE000 <= n < 0x11_0000 then Ok((n as char, rest))
    else Err("not a Unicode scalar value")
  }

  /** Reads one character; overlong forms and stray continuation bytes are
      rejected. */
  function DecodeChar(s: Bytes): (r: Parsed<char>)
    ensures r.Ok? ==> |r.value.1| < |s|
  {
    if |s| == 0 then Err("truncated character")
    else
      var b0: int := s[0];
      if b0 < 0x80 then Ok((b0 as char, s[1..]))
      else if 0xC0 <= b0 < 0xE0 && |s| >= 2 && IsContinuation(s[1]) then
        var n := (b0 - 0xC0) * 64 + (s[1] as int - 0x80);
        if n < 0x80 then Err("overlong character") else ScalarToChar(n, s[2..])
      else if 0xE0 <= b0 < 0xF0 && |s| >= 3 && IsContinuation(s[1]) && IsContinuation(s[2]) then
        var n := (b0 - 0xE0) * 4096 + (s[1] as int - 0x80) * 64 + (s[2] as int - 0x80);
        if n < 0x800 then Err("overlong character") else ScalarToChar(n, s[3..])
      else if 0xF0 <= b0 < 0xF8 && |s| >= 4 && IsContinuation(s[1]) && IsContinuation(s[2])
        && IsContinuation(s[3]) then
        var n := (b0 - 0xF0) * 262144 + (s[1] as int - 0x80) * 4096 + (s[2] as int - 0x80) * 64 + (s[3] as int - 0x80);
        if n < 0x1_0000 then Err("overlong character") else ScalarToChar(n, s[4..])
      else Err("invalid UTF-8")
  }

  lemma DecodeEncodedChar(c: char, rest: Bytes)
    ensures DecodeChar(EncodeChar(c) + rest) == Ok((c, rest))
  {
    var n := c as int;
    if n < 0x80 {
    } else if n < 0x800 {
      DecodeTwoByteChar(c, rest);
    } else if n < 0x1_0000 {
      DecodeThreeByteChar(c, rest);
    } else {
      DecodeFourByteChar(c, rest);
    }
  }

  lemma DecodeTwoByteChar(c: char, rest: Bytes)
    requires 0x80 <= c as int < 0x800
    ensures DecodeChar(EncodeChar(c) + rest) == Ok((c, rest))
  {
    var n := c as int;
    var s := EncodeChar(c) + rest;
    assert n == (n / 64) * 64 + n % 64;
    assert s[2..] == rest;
  }

  lemma DecodeThreeByteChar(c: char, rest: Bytes)
    requires 0x800 <= c as int < 0x1_0000
    ensures DecodeChar(EncodeChar(c) + rest) == Ok((c, rest))
  {
    var n := c as int;
    var s := EncodeChar(c) + rest;
    assert n / 64 == (n / 4096) * 64 + (n / 64) % 64;
    assert n == (n / 64) * 64 + n % 64;
    assert s[3..] == rest;
  }

  lemma DecodeFourByteChar(c: char, rest: Bytes)
    requires 0x1_0000 <= c as int
    ensures DecodeChar(EncodeChar(c) + rest) == Ok((c, rest))
  {
    var n := c as int;
    var s := EncodeChar(c) + rest;
    assert n / 4096 == (n / 262144) * 64 + (n / 4096) % 64;
    assert n / 64 == (n / 4096) * 64 + (n / 64) % 64;
    assert n == (n / 64) * 64 + n % 64;
    assert s[4..] == rest;
  }

  function Utf8(s: string): (r: Bytes)
    ensures |r| <= 4 * |s|
  {
    if s == [] then [] else EncodeChar(s[0]) + Utf8(s[1..])
  }

  function DecodeUtf8(bs: Bytes): (r: Result<string, string>)
    ensures r.Ok? ==> |r.value| <= |bs|
    decreases |bs|
  {
    if |bs| == 0 then Ok([])
    else
      var (c, rest) :- DecodeChar(bs);
      var cs :- DecodeUtf8(rest);
      Ok([c] + cs)
  }

  lemma {:induction false} Utf8RoundTrip(s: string)
    ensures DecodeUtf8(Utf8(s)) == Ok(s)
  {
    if s != [] {
      DecodeEncodedChar(s[0], Utf8(s[1..]));
      Utf8RoundTrip(s[1..]);
      assert s == [s[0]] + s[1..];
    }
  }

  /** Avro `bytes`: the length as a `long`, then the bytes. */
  function WriteBytes(b: Bytes): Bytes
  {
    WriteLong(|b|) + b
  }

  function ReadLengthPrefixed(s: Bytes): (r: Parsed<Bytes>)
    ensures r.Ok? ==> |r.value.1| < |s|
  {
    var (n, rest) :- ReadLong(s);
    if 0 <= n <= |rest| then Ok((rest[..n], rest[n..])) else Err("bad length")
  }

  /** A length-prefixed field reads back as its content, leaving what follows. */
  lemma LengthPrefixedRoundTrip(b: Bytes, rest: Bytes)
    requires |b| < TWO_POW_63
    ensures ReadLengthPrefixed(WriteBytes(b) + rest) == Ok((b, rest))
  {
    LongRoundTrip(|b|, b + rest);
    assert WriteBytes(b) + rest == WriteLong(|b|) + (b + rest);
    assert (b + rest)[..|b|] == b && (b + rest)[|b|..] == rest;
  }

  /** Reads `bytes` into a buffer; more than a Java array holds is rejected. */
  function ReadBytes(s: Bytes): (r: Parsed<ByteBuffer>)
    ensures r.Ok? ==> |r.value.1| < |s|
  {
    var (b, rest) :- ReadLengthPrefixed(s);
    if |b| < TWO_POW_31 then Ok((b, rest)) else Err("byte string too long")
  }

  lemma BytesRoundTrip(b: ByteBuffer, rest: Bytes)
    ensures ReadBytes(WriteBytes(b) + rest) == Ok((b, rest))
  {
    LengthPrefixedRoundTrip(b, rest);
  }

  /** Avro `string`: the UTF-8 bytes, length-prefixed. */
  function WriteString(s: string): Bytes
  {
    WriteBytes(Utf8(s))
  }

  function ReadString(s: Bytes): (r: Parsed<JavaString>)
    ensures r.Ok? ==> |r.value.1| < |s|
  {
    var (b, rest) :- ReadLengthPrefixed(s);
    var chars :- DecodeUtf8(b);
    if |chars| < TWO_POW_31 then Ok((chars, rest)) else Err("string too long")
  }

  lemma StringRoundTrip(str: JavaString, rest: Bytes)
    ensures ReadString(WriteString(str) + rest) == Ok((str, rest))
  {
    LengthPrefixedRoundTrip(Utf8(str), rest);
    Utf8RoundTrip(str);
  }

  /** The branch index of a `["null", T]` union, then the value if any. */
  function WriteNullableInt(o: Option<Int32>): Bytes
  {
    match o
    case None => WriteLong(0)
    case Some(n) => WriteLong(1) + WriteLong(n)
  }

  function ReadUnionBranch(s: Bytes): (r: Parsed<bool>)
    ensures r.Ok? ==> |r.value.1| < |s|
  {
    var (branch, rest) :- ReadLong(s);
    if branch == 0 then Ok((false, rest))
    else if branch == 1 then Ok((true, rest))
    else Err("bad union branch")
  }

  function ReadNullableInt(s: Bytes): (r: Parsed<Option<Int32>>)
    ensures r.Ok? ==> |r.value.1| < |s|
  {
    var (present, rest) :- ReadUnionBranch(s);
    if present then
      var (n, rest') :- ReadInt(rest);
      Ok((Some(n), rest'))
    else Ok((None, rest))
  }

  lemma NullableIntRoundTrip(o: Option<Int32>, rest: Bytes)
    ensures ReadNullableInt(WriteNullableInt(o) + rest) == Ok((o, rest))
  {
    match o
    case None => LongRoundTrip(0, rest);
    case Some(n) =>
      IntRoundTrip(n, rest);
      LongRoundTrip(1, WriteLong(n) + rest);
      assert WriteNullableInt(o) + rest == WriteLong(1) + (WriteLong(n) + rest);
  }

  function WriteNullableLong(o: Option<Int64>): Bytes
  {
    match o
    case None => WriteLong(0)
    case Some(n) => WriteLong(1) + WriteLong(n)
  }

  function ReadNullableLong(s: Bytes): (r: Parsed<Option<Int64>>)
    ensures r.Ok? ==> |r.value.1| < |s|
  {
    var (present, rest) :- ReadUnionBranch(s);
    if present then
      var (n, rest') :- ReadLong(rest);
      Ok((Some(n), rest'))
    else Ok((None, rest))
  }

  lemma NullableLongRoundTrip(o: Option<Int64>, rest: Bytes)
    ensures ReadNullableLong(WriteNullableLong(o) + rest) == Ok((o, rest))
  {
    match o
    case None => LongRoundTrip(0, rest);
    case Some(n) =>
      LongRoundTrip(n, rest);
      LongRoundTrip(1, WriteLong(n) + rest);
      assert WriteNullableLong(o) + rest == WriteLong(1) + (WriteLong(n) + rest);
  }

  function WriteNullableString(o: Option<JavaString>): Bytes
  {
    match o
    case None => WriteLong(0)
    case Some(str) => WriteLong(1) + WriteString(str)
  }

  function ReadNullableString(s: Bytes): (r: Parsed<Option<JavaString>>)
    ensures r.Ok? ==> |r.value.1| < |s|
  {
    var (present, rest) :- ReadUnionBranch(s);
    if present then
      var (str, rest') :- ReadString(rest);
      Ok((Some(str), rest'))
    else Ok((None, rest))
  }

  lemma NullableStringRoundTrip(o: Option<JavaString>, rest: Bytes)
    ensures ReadNullableString(WriteNullableString(o) + rest) == Ok((o, rest))
  {
    match o
    case None => LongRoundTrip(0, rest);
    case Some(str) =>
      StringRoundTrip(str, rest);
      LongRoundTrip(1, WriteString(str) + rest);
      assert WriteNullableString(o) + rest == WriteLong(1) + (WriteString(str) + rest);
  }

  // Arrays: the writer emits one block (the item count, the items) and then
  // the empty block that ends every array; an empty array is that end
  // block alone.

  function WriteItems<T>(write: T -> Bytes, xs: seq<T>): Bytes
  {
    if xs == [] then [] else write(xs[0]) + WriteItems(write, xs[1..])
  }

  function WriteArray<T>(write: T -> Bytes, xs: seq<T>): Bytes
  {
    if |xs| == 0 then WriteLong(0) else WriteLong(|xs|) + WriteItems(write, xs) + WriteLong(0)
  }

  function ReadItems<T>(read: Bytes -> Parsed<T>, s: Bytes, n: nat): (r: Parsed<seq<T>>)
    ensures r.Ok? ==> |r.value.0| == n
    decreases n
  {
    if n == 0 then Ok(([], s))
    else
      var (x, rest) :- read(s);
      var (xs, rest') :- ReadItems(read, rest, n - 1);
      Ok(([x] + xs, rest'))
  }

  /** Reads the single-block form the writer produces. */
  function ReadArray<T>(read: Bytes -> Parsed<T>, s: Bytes): (r: Parsed<JavaList<T>>)
  {
    var (n, rest) :- ReadLong(s);
    if n == 0 then Ok(([], rest))
    else if 0 < n < TWO_POW_31 then
      var (xs, rest') :- ReadItems(read, rest, n);
      var (end, rest'') :- ReadLong(rest');
      if end == 0 then Ok((xs, rest'')) else Err("more than one array block")
    else Err("bad block count")
  }

  /** `read` undoes `write`, whatever follows. */
  ghost predicate Undoes<T(!new)>(read: Bytes -> Parsed<T>, write: T -> Bytes)
  {
    forall x: T, rest: Bytes :: read(write(x) + rest) == Ok((x, rest))
  }

  lemma {:induction false} ItemsRoundTrip<T(!new)>(write: T -> Bytes, read: Bytes -> Parsed<T>, xs: seq<T>, rest: Bytes)
    requires Undoes(read, write)
    ensures ReadItems(read, WriteItems(write, xs) + rest, |xs|) == Ok((xs, rest))
  {
    if xs != [] {
      var tail := WriteItems(write, xs[1..]) + rest;
      assert WriteItems(write, xs) + rest == write(xs[0]) + tail;
      assert read(write(xs[0]) + tail) == Ok((xs[0], tail));
      ItemsRoundTrip(write, read, xs[1..], rest);
      assert xs == [xs[0]] + xs[1..];
    } else {
      assert WriteItems(write, xs) + rest == rest;
    }
  }

  lemma ArrayRoundTrip<T(!new)>(write: T -> Bytes, read: Bytes -> Parsed<T>, xs: JavaList<T>, rest: Bytes)
    requires Undoes(read, write)
    ensures ReadArray(read, WriteArray(write, xs) + rest) == Ok((xs, rest))
  {
    if |xs| == 0 {
      LongRoundTrip(0, rest);
    } else {
      var items := WriteItems(write, xs);
      assert WriteArray(write, xs) + rest == WriteLong(|xs|) + (items + (WriteLong(0) + rest));
      LongRoundTrip(|xs|, items + (WriteLong(0) + rest));
      ItemsRoundTrip(write, read, xs, WriteLong(0) + rest);
      LongRoundTrip(0, rest);
    }
  }
}
