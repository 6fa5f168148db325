/** The versioned plaintext codec applied just before encryption. */
module PrivateCodec {
  import opened Basics

  /** Whether bytes are the canonical JSON form of some object; the JSON library is not modelled. */
  const CanonicalJsonObject: Bytes -> bool

  const MAX_ENCODED_FRAME_BYTES: nat := 2 * 1024 * 1024
  const MAX_AUXILIARY_CANONICAL_JSON_BYTES: nat := 64 * 1024

  /** The ASCII bytes "OACPEV1" and a zero. */
  const MAGIC: Bytes := [79, 65, 67, 80, 69, 86, 49, 0]
  const LENGTH_BYTES: nat := 8

  /** The magic, the type code and the length. */
  const OVERHEAD_BYTES: nat := 17

  datatype RecordType = FrameJpeg | AuxiliaryJson

  function Code(t: RecordType): Byte {
    if t.FrameJpeg? then 1 else 2
  }

  function TypeOfCode(code: Byte): Option<RecordType> {
    if code == 1 then Some(FrameJpeg) else if code == 2 then Some(AuxiliaryJson) else None
  }

  function Power256(n: nat): (p: nat)
    ensures p >= 1
  {
    if n == 0 then 1 else 256 * Power256(n - 1)
  }

  function BigEndian(value: nat, width: nat): (bs: Bytes)
    requires value < Power256(width)
    ensures |bs| == width && BigEndianValue(bs) == value
  {
    if width == 0 then []
    else
      var bs := BigEndian(value / 256, width - 1) + [value % 256];
      assert bs[..width - 1] == BigEndian(value / 256, width - 1);
      bs
  }

  function BigEndianValue(bs: Bytes): (value: nat)
    ensures value < Power256(|bs|)
  {
    if bs == [] then 0 else 256 * BigEndianValue(bs[..|bs| - 1]) + bs[|bs| - 1]
  }

  /** Equal widths, equal values, equal bytes. */
  lemma {:induction false} BigEndianUnique(a: Bytes, b: Bytes)
    requires |a| == |b| && BigEndianValue(a) == BigEndianValue(b)
    ensures a == b
  {
    if a != [] {
      var n := |a| - 1;
      BigEndianUnique(a[..n], b[..n]);
      assert a == a[..n] + [a[n]] && b == b[..n] + [b[n]];
    }
  }

  /** The payloads the codec carries under a record type. */
  predicate Acceptable(t: RecordType, payload: Bytes) {
    if t.FrameJpeg? then 0 < |payload| <= MAX_ENCODED_FRAME_BYTES
    else 0 < |payload| <= MAX_AUXILIARY_CANONICAL_JSON_BYTES && CanonicalJsonObject(payload)
  }

  lemma LengthFits(t: RecordType, payload: Bytes)
    requires Acceptable(t, payload)
    ensures |payload| < Power256(LENGTH_BYTES)
  {
    assert Power256(2) == 65536 && Power256(4) == 65536 * 65536;
    assert Power256(8) == 65536 * 65536 * Power256(4);
  }

  function Encode(t: RecordType, payload: Bytes): Option<Bytes> {
    if !Acceptable(t, payload) then None
    else
      LengthFits(t, payload);
      Some(MAGIC + [Code(t)] + BigEndian(|payload|, LENGTH_BYTES) + payload)
  }

  function Decode(expected: RecordType, encoded: Bytes): Option<Bytes> {
    if |encoded| <= OVERHEAD_BYTES || encoded[..|MAGIC|] != MAGIC then None
    else if TypeOfCode(encoded[|MAGIC|]) != Some(expected) then None
    else if BigEndianValue(encoded[|MAGIC| + 1..OVERHEAD_BYTES]) != |encoded| - OVERHEAD_BYTES then None
    else
      var payload := encoded[OVERHEAD_BYTES..];
      if Acceptable(expected, payload) then Some(payload) else None
  }

  /** Frames of one byte up to two megabytes are encoded, and canonical JSON objects of up to 64 kilobytes. */
  lemma EncodesIff(t: RecordType, payload: Bytes)
    ensures Encode(t, payload).Some? <==>
              1 <= |payload| && if t.FrameJpeg? then |payload| <= 2097152 else |payload| <= 65536 && CanonicalJsonObject(payload)
    ensures Encode(t, payload).Some? ==>
              var encoded := Encode(t, payload).value;
              |encoded| == |payload| + 17 && encoded[8] == (if t.FrameJpeg? then 1 else 2) && BigEndianValue(encoded[9..17]) == |payload|
  {
    if Acceptable(t, payload) {
      LengthFits(t, payload);
      var encoded := Encode(t, payload).value;
      assert encoded[9..17] == BigEndian(|payload|, LENGTH_BYTES);
    }
  }

  /** Encode and decode are inverse to each other, in both directions at once. */
  lemma DecodesExactlyWhatEncodes(t: RecordType, payload: Bytes, encoded: Bytes)
    ensures Decode(t, encoded) == Some(payload) <==> Encode(t, payload) == Some(encoded)
  {
    if Encode(t, payload) == Some(encoded) {
      EncodedDecodes(t, payload, encoded);
    }
    if Decode(t, encoded) == Some(payload) {
      DecodedEncodes(t, payload, encoded);
    }
  }

  /** The four parts of what is longer than its overhead. */
  lemma Parts(encoded: Bytes, magic: Bytes, code: Byte, width: Bytes, payload: Bytes)
    requires |magic| == |MAGIC| && |width| == LENGTH_BYTES
    ensures (encoded == magic + [code] + width + payload)
            <==> && |encoded| >= OVERHEAD_BYTES && encoded[..|MAGIC|] == magic && encoded[|MAGIC|] == code
                 && encoded[|MAGIC| + 1..OVERHEAD_BYTES] == width && encoded[OVERHEAD_BYTES..] == payload
  {
    if |encoded| >= OVERHEAD_BYTES {
      assert encoded == encoded[..|MAGIC|] + [encoded[|MAGIC|]] + encoded[|MAGIC| + 1..OVERHEAD_BYTES] + encoded[OVERHEAD_BYTES..];
    }
  }

  lemma EncodedDecodes(t: RecordType, payload: Bytes, encoded: Bytes)
    requires Encode(t, payload) == Some(encoded)
    ensures Decode(t, encoded) == Some(payload)
  {
    LengthFits(t, payload);
    Parts(encoded, MAGIC, Code(t), BigEndian(|payload|, LENGTH_BYTES), payload);
    hide BigEndian, BigEndianValue, MAGIC;
  }

  lemma DecodedEncodes(t: RecordType, payload: Bytes, encoded: Bytes)
    requires Decode(t, encoded) == Some(payload)
    ensures Encode(t, payload) == Some(encoded)
  {
    LengthFits(t, payload);
    BigEndianUnique(encoded[|MAGIC| + 1..OVERHEAD_BYTES], BigEndian(|payload|, LENGTH_BYTES));
    Parts(encoded, MAGIC, Code(t), BigEndian(|payload|, LENGTH_BYTES), payload);
    hide BigEndian, BigEndianValue, MAGIC;
  }

  /** A record is never read as the other type, and its length is the payload's plus a constant. */
  lemma EncodedShape(t: RecordType, payload: Bytes, other: RecordType)
    requires Encode(t, payload).Some? && other != t
    ensures |Encode(t, payload).value| == |payload| + OVERHEAD_BYTES
    ensures Decode(other, Encode(t, payload).value).None?
  {
    LengthFits(t, payload);
  }

  /** No record is a proper prefix of another: truncation or trailing bytes are always rejected. */
  lemma EncodingIsPrefixFree(t: RecordType, e: Bytes, t': RecordType, e': Bytes)
    requires Decode(t, e).Some? && Decode(t', e').Some? && e <= e'
    ensures e == e' && t == t'
  {
    assert e[|MAGIC| + 1..OVERHEAD_BYTES] == e'[|MAGIC| + 1..OVERHEAD_BYTES];
    assert e[|MAGIC|] == e'[|MAGIC|];
  }
}
