/**
 * The two byte conversions of the signing view: a document's number array
 * turned into base 64 text when the document is prepared, and base 64 text
 * turned back into a byte array when a document is submitted.
 */
module Transcode {
  import opened Wrappers
  import opened Base64

  /** The file data handed to the encoder: a number array, or an object
      carrying one in its `data` field. */
  datatype NumberBuffer = NumberArray(values: seq<int>) | BufferObject(data: seq<int>)

  /** `Array.isArray(buffer) ? buffer : buffer.data`. */
  function DataArray(buffer: NumberBuffer): seq<int> {
    match buffer
    case NumberArray(values) => values
    case BufferObject(data) => data
  }

  /** `new Uint8Array(values)`: every number is reduced modulo 256. */
  function ToUint8(values: seq<int>): (bs: seq<byte>)
    ensures |bs| == |values|
    ensures forall i | 0 <= i < |values| :: bs[i] == values[i] % 256
    ensures (forall i | 0 <= i < |values| :: 0 <= values[i] < 256) ==> bs == values
  {
    seq(|values|, i requires 0 <= i < |values| => values[i] % 256)
  }

  /** Builds the binary string one character per byte, then encodes it. */
  method ArrayBufferToBase64(buffer: NumberBuffer) returns (b64: string)
    ensures b64 == Encode(ToUint8(DataArray(buffer)))
    ensures Decode(b64) == Some(ToUint8(DataArray(buffer)))
  {
    var dataArray := DataArray(buffer);
    var byteArray := ToUint8(dataArray);
    var binary := "";
    for i := 0 to |byteArray|
      invariant binary == BinaryString(byteArray[..i])
    {
      binary := binary + [byteArray[i] as char];
    }
    assert byteArray[..|byteArray|] == byteArray;
    assert Codes(binary) == byteArray;
    b64 := Btoa(binary).value;
    DecodeEncode(byteArray);
  }

  /** Decodes base 64 text with `atob` and copies the character codes into a
      fresh byte array; nothing when `atob` rejects the text. */
  method Base64ToBytes(b64: string) returns (bytes: Option<seq<byte>>)
    ensures bytes == Decode(b64)
  {
    var decoded := Atob(b64);
    if decoded.None? {
      return None;
    }
    var binaryString := decoded.value;
    var arr := new byte[|binaryString|];
    for i := 0 to |binaryString|
      invariant forall j | 0 <= j < i :: arr[j] == Decode(b64).value[j]
    {
      arr[i] := (binaryString[i] as int) % 256;
    }
    assert arr[..] == Decode(b64).value;
    bytes := Some(arr[..]);
  }

  /** The bytes rebuilt from a prepared document's base 64 text are the file's
      bytes: the encoder and the decoding loop are inverse. */
  lemma BytesSurviveTranscoding(buffer: NumberBuffer)
    ensures Decode(Encode(ToUint8(DataArray(buffer)))) == Some(ToUint8(DataArray(buffer)))
    ensures (forall i | 0 <= i < |DataArray(buffer)| :: 0 <= DataArray(buffer)[i] < 256) ==>
              Decode(Encode(ToUint8(DataArray(buffer)))) == Some(DataArray(buffer))
  {
    DecodeEncode(ToUint8(DataArray(buffer)));
  }
}
