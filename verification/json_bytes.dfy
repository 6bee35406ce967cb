/** The byte layer of the JSON wire format (`_encode.JSON`, `_decode.JSON`
    and the JSON worker): one octet per UTF-16 code unit of the serialised
    text, keeping only the low eight bits. This is a Latin-1-style encoding,
    lossy above U+00FF; `JSON.stringify` / `JSON.parse` themselves sit
    outside this model, so text here is already serialised. */
module JsonBytes {
  import opened Wrappers
  import opened Bytes

  /** A UTF-16 code unit, as `charCodeAt` returns it. */
  type CodeUnit = x: int | 0 <= x < 0x1_0000

  /** The octet `setUint8` stores for `code & 255`: for a non-negative code
      the mask keeps the unique octet congruent to the code modulo 256. */
  function LowByte(c: CodeUnit): (b: byte)
    ensures (c - b) % BYTE_RANGE == 0
  {
    c % BYTE_RANGE
  }

  /** The octets of `data`: `data.length` of them, octet i being
      `data.charCodeAt(i) & 255`, i.e. the octet congruent to it modulo 256. */
  function EncodeText(s: seq<CodeUnit>): (b: seq<byte>)
    ensures |b| == |s|
    ensures forall i :: 0 <= i < |s| ==> (s[i] - b[i]) % BYTE_RANGE == 0
  {
    seq(|s|, i requires 0 <= i < |s| => LowByte(s[i]))
  }

  /** The text read back from octets: octet i becomes the code unit
      `String.fromCharCode(view.getUint8(i))`. */
  function Chars(b: seq<byte>): (s: seq<CodeUnit>)
    ensures |s| == |b|
    ensures forall i :: 0 <= i < |b| ==> s[i] == b[i] as int
  {
    seq(|b|, i requires 0 <= i < |b| => b[i] as CodeUnit)
  }

  /** `_decode.JSON` up to the parse: the text of the octets, except that an
      empty buffer is "no value" (`undefined`) rather than a parse. */
  function DecodeText(b: seq<byte>): (r: Option<seq<CodeUnit>>)
    ensures r.None? <==> |b| == 0
    ensures r.Some? ==> |r.value| == |b| && forall i :: 0 <= i < |b| ==> r.value[i] == b[i] as int
  {
    if |b| == 0 then None else Some(Chars(b))
  }

  predicate IsLatin1(s: seq<CodeUnit>) {
    forall i :: 0 <= i < |s| ==> s[i] < BYTE_RANGE
  }

  /** What a non-empty text comes back as: each code unit reduced modulo 256. */
  lemma DecodeEncodeText(s: seq<CodeUnit>)
    requires |s| > 0
    ensures DecodeText(EncodeText(s)).Some?
    ensures forall i :: 0 <= i < |s| ==> DecodeText(EncodeText(s)).value[i] == s[i] % BYTE_RANGE
  {
  }

  /** A non-empty text survives the byte layer exactly when every code unit
      is below 256. */
  lemma TextRoundTripIff(s: seq<CodeUnit>)
    requires |s| > 0
    ensures DecodeText(EncodeText(s)) == Some(s) <==> IsLatin1(s)
  {
    DecodeEncodeText(s);
    var t := DecodeText(EncodeText(s)).value;
    if IsLatin1(s) {
      assert t == s;
    } else {
      var i :| 0 <= i < |s| && s[i] >= BYTE_RANGE;
      assert t[i] != s[i];
    }
  }

  /** Every non-empty octet buffer is the encoding of what it decodes to. */
  lemma EncodeDecodeText(b: seq<byte>)
    requires |b| > 0
    ensures DecodeText(b).Some? && EncodeText(DecodeText(b).value) == b
  {
  }

  /** U+0100 ('Ā') is stored as octet 0 and so comes back as U+0000. */
  lemma TruncationAboveLatin1()
    ensures EncodeText([0x100]) == [0]
    ensures DecodeText(EncodeText([0x100])) == Some([0])
  {
    assert EncodeText([0x100])[0] == LowByte(0x100);
    var t := DecodeText([0]).value;
    assert |t| == 1 && t[0] == 0;
    assert t == [0];
  }

  /** The empty buffer decodes to "no value" rather than failing. */
  lemma EmptyIsNoValue()
    ensures DecodeText([]) == None
  {
  }
}
