/** The message handlers of the Int32 and JSON worker templates
    (`_worker.Int32`, `_worker.JSON`): decode the one inbound buffer, apply
    the registered computation, normalise and encode its result, reply once.
    The computation is a parameter; `postMessage`, `close` and the script
    text are not modelled. */
module Worker {
  import opened Wrappers
  import opened Bytes
  import opened JsNumbers
  import Int32Codec
  import JsonBytes

  /** What a computation registered for Int32 returns: a bare Number or an
      array of Numbers. */
  datatype Int32Returned = Scalar(n: JsNumber) | List(items: seq<JsNumber>)

  /** The result as an array: a value that is not an array is wrapped as a
      one-element array before encoding. */
  function Normalise(v: Int32Returned): (r: seq<JsNumber>)
    ensures v.Scalar? ==> r == [v.n]
    ensures v.List? ==> r == v.items
  {
    match v
    case Scalar(n) => [n]
    case List(items) => items
  }

  /** The Int32 worker's handler. A buffer whose length is not a multiple of
      four makes `Array(len)` throw; otherwise the reply decodes, word by
      word, to ToInt32 of the normalised result. */
  function RunInt32(compute: seq<int> -> Int32Returned, message: seq<byte>): (r: Result<seq<byte>>)
    ensures |message| % Int32Codec.WORD_SIZE != 0 <==> r == Failure(RangeError)
    ensures r.Success? <==> |message| % Int32Codec.WORD_SIZE == 0
    ensures r.Success? ==>
      Int32Codec.Decode(r.value)
        == Success(Int32Codec.Int32s(Normalise(compute(Int32Codec.Decode(message).value))))
  {
    match Int32Codec.Decode(message)
    case Failure(e) => Failure(e)
    case Success(args) =>
      var result := Normalise(compute(args));
      Int32Codec.DecodeEncode(result);
      Success(Int32Codec.Encode(result))
  }

  /** A computation returning a bare Number replies exactly as one returning
      the one-element array holding it. */
  lemma ScalarRepliesAsSingleton(f: seq<int> -> Int32Returned, g: seq<int> -> Int32Returned,
                                 message: seq<byte>, n: JsNumber)
    requires |message| % Int32Codec.WORD_SIZE == 0
    requires f(Int32Codec.Decode(message).value) == Scalar(n)
    requires g(Int32Codec.Decode(message).value) == List([n])
    ensures RunInt32(f, message) == RunInt32(g, message)
  {
  }

  /** The sum of the first two arguments, as `(a, b) => a + b` computes it
      (a missing argument is `undefined`, and the sum NaN). */
  function Add(args: seq<int>): Int32Returned {
    if |args| >= 2 then Scalar(FromInt(args[0] + args[1])) else Scalar(NaN)
  }

  /** `add(2, 3)` travels as two big-endian words and comes back as one
      word holding 5. */
  lemma AddScenario()
    ensures Int32Codec.Encode(Int32Codec.AsNumbers([2, 3])) == [0, 0, 0, 2, 0, 0, 0, 3]
    ensures RunInt32(Add, Int32Codec.Encode(Int32Codec.AsNumbers([2, 3]))) == Success([0, 0, 0, 5])
  {
    var b := Int32Codec.Encode(Int32Codec.AsNumbers([2, 3]));
    Int32Codec.DecodeEncodeInt32([2, 3]);
    ToInt32OfInt32(2);
    ToInt32OfInt32(3);
    ToInt32OfInt32(5);
    assert b[0..4] == [0, 0, 0, 2] && b[4..8] == [0, 0, 0, 3];
    assert b == b[0..4] + b[4..8];
    var reply := Int32Codec.Encode([FromInt(5)]);
    assert reply == reply[0..4];
  }

  /** What `JSON.stringify` makes of the computation's return value: text,
      `undefined` (for an `undefined` result), or a thrown error. */
  datatype Stringified = Text(text: seq<JsonBytes.CodeUnit>) | Undefined | NotSerialisable

  /** The JSON worker's handler. The inbound octets become text (parsing it
      and applying the computation are folded into `compute`); an
      unserialisable result is an error, `undefined` replies with an empty
      buffer, and text replies with its low octets: octet i is congruent
      to code unit i modulo 256 whether or not the text is Latin-1. */
  function RunJson(compute: seq<JsonBytes.CodeUnit> -> Stringified, message: seq<byte>): (r: Result<seq<byte>>)
    ensures compute(JsonBytes.Chars(message)).NotSerialisable? <==> r == Failure(SerializationError)
    ensures compute(JsonBytes.Chars(message)).Undefined? ==>
      r.Success? && JsonBytes.DecodeText(r.value) == None
    ensures compute(JsonBytes.Chars(message)).Text? ==>
      var s := compute(JsonBytes.Chars(message)).text;
      r.Success? && |r.value| == |s| &&
      (forall i :: 0 <= i < |s| ==> (s[i] - r.value[i]) % BYTE_RANGE == 0) &&
      (|s| > 0 ==> (JsonBytes.DecodeText(r.value) == Some(s) <==> JsonBytes.IsLatin1(s)))
  {
    match compute(JsonBytes.Chars(message))
    case NotSerialisable => Failure(SerializationError)
    case Undefined => Success([])
    case Text(s) =>
      if |s| > 0 then JsonBytes.TextRoundTripIff(s); Success(JsonBytes.EncodeText(s))
      else Success(JsonBytes.EncodeText(s))
  }
}
