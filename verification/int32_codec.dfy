/** The Int32 wire format of `_encode.Int32` / `_decode.Int32` (and of the
    Int32 worker): four octets per element, big-endian two's complement,
    which is what `DataView` get/setInt32 do when `littleEndian` is omitted
    (GetViewValue / SetViewValue, sections 25.3.1.5 and 25.3.1.6 of ECMA-262). */
module Int32Codec {
  import opened Wrappers
  import opened Bytes
  import opened JsNumbers

  const WORD_SIZE: nat := 4

  /** The unsigned number four octets spell, most significant first. */
  function BigEndian(w: seq<byte>): int
    requires |w| == WORD_SIZE
  {
    ((w[0] as int * 256 + w[1] as int) * 256 + w[2] as int) * 256 + w[3] as int
  }

  /** The four octets `setInt32` stores for an int32 value, most significant
      first. Written as repeated division by 256 so that each step is one
      quotient/remainder pair. */
  function WordBytes(n: int): (w: seq<byte>)
    requires IsInt32(n)
    ensures |w| == WORD_SIZE
    ensures BigEndian(w) == n % TWO_32
  {
    var u := n % TWO_32;
    var q1 := u / 256;
    var q2 := q1 / 256;
    var q3 := q2 / 256;
    assert u == ((q3 * 256 + q2 % 256) * 256 + q1 % 256) * 256 + u % 256;
    [q3, q2 % 256, q1 % 256, u % 256]
  }

  /** The int32 value `getInt32` reads from four big-endian octets. */
  function WordValue(w: seq<byte>): (n: int)
    requires |w| == WORD_SIZE
    ensures IsInt32(n)
    ensures n % TWO_32 == BigEndian(w)
  {
    var u := BigEndian(w);
    if u >= TWO_31 then u - TWO_32 else u
  }

  lemma WordValueOfWordBytes(n: int)
    requires IsInt32(n)
    ensures WordValue(WordBytes(n)) == n
  {
  }

  lemma WordBytesOfWordValue(w: seq<byte>)
    requires |w| == WORD_SIZE
    ensures WordBytes(WordValue(w)) == w
  {
    var b0, b1, b2, b3: int := w[0], w[1], w[2], w[3];
    var u := ((b0 * 256 + b1) * 256 + b2) * 256 + b3;
    assert WordValue(w) % TWO_32 == u;
    var q1 := u / 256;
    assert q1 == (b0 * 256 + b1) * 256 + b2 && u % 256 == b3;
    var q2 := q1 / 256;
    assert q2 == b0 * 256 + b1 && q1 % 256 == b2;
    assert q2 / 256 == b0 && q2 % 256 == b1;
  }

  /** `_encode.Int32(args)`: a buffer of `4 * args.length` octets whose
      i-th word holds ToInt32(args[i]). */
  function Encode(args: seq<JsNumber>): (b: seq<byte>)
    ensures |b| == WORD_SIZE * |args|
    ensures forall i :: 0 <= i < |args| ==>
      b[WORD_SIZE * i .. WORD_SIZE * i + WORD_SIZE] == WordBytes(ToInt32(args[i]))
  {
    if |args| == 0 then []
    else
      var rest := Encode(args[1..]);
      var b := WordBytes(ToInt32(args[0])) + rest;
      assert forall i :: 1 <= i < |args| ==>
        b[WORD_SIZE * i .. WORD_SIZE * i + WORD_SIZE]
          == rest[WORD_SIZE * (i - 1) .. WORD_SIZE * (i - 1) + WORD_SIZE];
      b
  }

  /** The words of a buffer whose length is a multiple of four. */
  function Words(b: seq<byte>): (r: seq<int>)
    requires |b| % WORD_SIZE == 0
    ensures |r| == |b| / WORD_SIZE
    ensures forall i :: 0 <= i < |r| ==>
      r[i] == WordValue(b[WORD_SIZE * i .. WORD_SIZE * i + WORD_SIZE])
  {
    if |b| == 0 then []
    else
      var rest := Words(b[WORD_SIZE..]);
      var r := [WordValue(b[..WORD_SIZE])] + rest;
      assert forall i :: 1 <= i < |r| ==>
        b[WORD_SIZE * i .. WORD_SIZE * i + WORD_SIZE]
          == b[WORD_SIZE..][WORD_SIZE * (i - 1) .. WORD_SIZE * (i - 1) + WORD_SIZE];
      r
  }

  /** `_decode.Int32(data)`: `Array(byteLength / 4)` throws a RangeError when
      the quotient is fractional; otherwise one int32 per four octets. */
  function Decode(b: seq<byte>): (r: Result<seq<int>>)
    ensures |b| % WORD_SIZE != 0 <==> r == Failure(RangeError)
    ensures r.Success? <==> |b| % WORD_SIZE == 0
    ensures r.Success? ==> |r.value| * WORD_SIZE == |b|
    ensures r.Success? ==> forall i :: 0 <= i < |r.value| ==>
      r.value[i] == WordValue(b[WORD_SIZE * i .. WORD_SIZE * i + WORD_SIZE]) && IsInt32(r.value[i])
  {
    if |b| % WORD_SIZE != 0 then Failure(RangeError) else Success(Words(b))
  }

  /** The Numbers holding the given integers, as a caller passes them. */
  function AsNumbers(xs: seq<int>): (r: seq<JsNumber>)
    ensures |r| == |xs|
    ensures forall i :: 0 <= i < |xs| ==> r[i] == FromInt(xs[i])
  {
    seq(|xs|, i requires 0 <= i < |xs| => FromInt(xs[i]))
  }

  /** What `setInt32` keeps of each argument. */
  function Int32s(args: seq<JsNumber>): (r: seq<int>)
    ensures |r| == |args|
    ensures forall i :: 0 <= i < |args| ==> r[i] == ToInt32(args[i])
  {
    seq(|args|, i requires 0 <= i < |args| => ToInt32(args[i]))
  }

  /** Decoding an encoded argument list yields each argument's ToInt32. */
  lemma DecodeEncode(args: seq<JsNumber>)
    ensures Decode(Encode(args)) == Success(Int32s(args))
  {
    var b := Encode(args);
    var ws := Words(b);
    forall i | 0 <= i < |args|
      ensures ws[i] == Int32s(args)[i]
    {
      WordValueOfWordBytes(ToInt32(args[i]));
    }
    assert ws == Int32s(args);
  }

  /** Round trip for int32 values: `Decode(Encode(xs)) == xs`. */
  lemma DecodeEncodeInt32(xs: seq<int>)
    requires forall i :: 0 <= i < |xs| ==> IsInt32(xs[i])
    ensures Decode(Encode(AsNumbers(xs))) == Success(xs)
  {
    var args := AsNumbers(xs);
    DecodeEncode(args);
    forall i | 0 <= i < |xs|
      ensures Int32s(args)[i] == xs[i]
    {
      ToInt32OfInt32(xs[i]);
    }
    assert Int32s(args) == xs;
  }

  /** Two buffers of `4n` octets agreeing word by word are equal. */
  lemma WordwiseEqual(a: seq<byte>, b: seq<byte>, n: nat)
    requires |a| == |b| == WORD_SIZE * n
    requires forall i :: 0 <= i < n ==>
      a[WORD_SIZE * i .. WORD_SIZE * i + WORD_SIZE] == b[WORD_SIZE * i .. WORD_SIZE * i + WORD_SIZE]
    ensures a == b
  {
    forall k | 0 <= k < |a|
      ensures a[k] == b[k]
    {
      var i := k / WORD_SIZE;
      assert a[WORD_SIZE * i .. WORD_SIZE * i + WORD_SIZE][k - WORD_SIZE * i] == a[k];
      assert b[WORD_SIZE * i .. WORD_SIZE * i + WORD_SIZE][k - WORD_SIZE * i] == b[k];
    }
  }

  /** Every well-sized buffer is the encoding of what it decodes to. */
  lemma EncodeDecode(b: seq<byte>)
    requires |b| % WORD_SIZE == 0
    ensures Decode(b).Success?
    ensures Encode(AsNumbers(Decode(b).value)) == b
  {
    var xs := Decode(b).value;
    var e := Encode(AsNumbers(xs));
    forall i | 0 <= i < |xs|
      ensures e[WORD_SIZE * i .. WORD_SIZE * i + WORD_SIZE] == b[WORD_SIZE * i .. WORD_SIZE * i + WORD_SIZE]
    {
      ToInt32OfInt32(xs[i]);
      WordBytesOfWordValue(b[WORD_SIZE * i .. WORD_SIZE * i + WORD_SIZE]);
    }
    WordwiseEqual(e, b, |xs|);
  }
}
