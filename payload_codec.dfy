/**
 * The oversize-payload codec of the canceler worker: payloads whose
 * serialised size exceeds a threshold are written to external storage under
 * a fresh key and replaced by a small reference payload; decoding follows the
 * reference back to the stored bytes.  Storage (one file per key in a
 * directory) is a map from the file key's UTF-8 bytes to the file contents.
 */
module PayloadCodec {
  import opened Wrappers
  import opened Text

  /** A Temporal payload: string-keyed byte metadata and a byte body. */
  datatype Payload = Payload(metadata: map<string, seq<byte>>, data: seq<byte>)

  /**
   * The protobuf wire format of a payload, kept abstract: `SerializeToString`
   * and `FromString` (which rejects bytes that are not a payload).
   */
  datatype Serializer = Serializer(serialize: Payload -> seq<byte>, parse: seq<byte> -> Option<Payload>)

  /** Parsing what was serialised gives the payload back. */
  ghost predicate Lawful(f: Serializer) {
    forall p :: f.parse(f.serialize(p)) == Some(p)
  }

  const EncodingKey: string := "encoding"
  const MarkerKey: string := "temporal.io/oversize-payload-codec"
  /** "binary/oversize-payload-codec" in ASCII. */
  const EncodingValue: seq<byte> := [0x62, 0x69, 0x6e, 0x61, 0x72, 0x79, 0x2f, 0x6f, 0x76, 0x65, 0x72,
                                     0x73, 0x69, 0x7a, 0x65, 0x2d, 0x70, 0x61, 0x79, 0x6c, 0x6f, 0x61,
                                     0x64, 0x2d, 0x63, 0x6f, 0x64, 0x65, 0x63]
  /** "v1" in ASCII. */
  const MarkerValue: seq<byte> := [0x76, 0x31]

  /** Protobuf's `ByteSize()` is the length of the serialised message. */
  function ByteSize(f: Serializer, p: Payload): nat {
    |f.serialize(p)|
  }

  predicate Oversized(f: Serializer, minBytes: int, p: Payload) {
    ByteSize(f, p) > minBytes
  }

  /** The payload carries the codec's `v1` marker. */
  predicate Marked(p: Payload) {
    MarkerKey in p.metadata && p.metadata[MarkerKey] == MarkerValue
  }

  /** The marker check decodes cleanly and does not find `v1`: decode copies such a payload. */
  predicate Unmarked(p: Payload) {
    MarkerKey !in p.metadata || (ValidUtf8(p.metadata[MarkerKey]) && p.metadata[MarkerKey] != MarkerValue)
  }

  /** The reference payload that stands for a payload stored under `key`. */
  function Reference(key: string): (r: Payload)
    requires IsAsciiString(key)
  {
    Payload(map[EncodingKey := EncodingValue, MarkerKey := MarkerValue], AsciiBytes(key))
  }

  /** One fresh key per input position: ASCII (UUID text), pairwise distinct, not yet in storage. */
  predicate FreshKeys(storage: map<seq<byte>, seq<byte>>, keys: seq<string>) {
    && (forall i :: 0 <= i < |keys| ==> IsAsciiString(keys[i]))
    && (forall i :: 0 <= i < |keys| ==> AsciiBytes(keys[i]) !in storage)
    && (forall i, j :: 0 <= i < j < |keys| ==> keys[i] != keys[j])
  }

  // ------------------------------------------------------------- encoding

  function EncodeOne(f: Serializer, minBytes: int, p: Payload, key: string): Payload
    requires IsAsciiString(key)
  {
    if Oversized(f, minBytes, p) then Reference(key) else p
  }

  /** What `encode` returns: position by position, a reference or a copy. */
  function Encoded(f: Serializer, minBytes: int, ps: seq<Payload>, keys: seq<string>): seq<Payload>
    requires |keys| == |ps| && forall i :: 0 <= i < |keys| ==> IsAsciiString(keys[i])
  {
    seq(|ps|, i requires 0 <= i < |ps| => EncodeOne(f, minBytes, ps[i], keys[i]))
  }

  /** The storage after `encode`: one new entry per oversized payload. */
  function Stored(f: Serializer, minBytes: int, storage: map<seq<byte>, seq<byte>>,
                  ps: seq<Payload>, keys: seq<string>): map<seq<byte>, seq<byte>>
    requires |keys| == |ps| && forall i :: 0 <= i < |keys| ==> IsAsciiString(keys[i])
  {
    if ps == [] then storage
    else
      var n := |ps| - 1;
      var before := Stored(f, minBytes, storage, ps[..n], keys[..n]);
      if Oversized(f, minBytes, ps[n]) then before[AsciiBytes(keys[n]) := f.serialize(ps[n])] else before
  }

  /** The keys `encode` writes under: those of the oversized positions. */
  function AddedKeys(f: Serializer, minBytes: int, ps: seq<Payload>, keys: seq<string>): set<seq<byte>>
    requires |keys| == |ps| && forall i :: 0 <= i < |keys| ==> IsAsciiString(keys[i])
  {
    set i | 0 <= i < |ps| && Oversized(f, minBytes, ps[i]) :: AsciiBytes(keys[i])
  }

  /** `encode` adds one entry per oversized payload and no other key. */
  lemma {:induction false} StoredKeys(f: Serializer, minBytes: int, storage: map<seq<byte>, seq<byte>>,
                                      ps: seq<Payload>, keys: seq<string>)
    requires |keys| == |ps| && forall i :: 0 <= i < |keys| ==> IsAsciiString(keys[i])
    ensures Stored(f, minBytes, storage, ps, keys).Keys == storage.Keys + AddedKeys(f, minBytes, ps, keys)
  {
    if ps != [] {
      var n := |ps| - 1;
      StoredKeys(f, minBytes, storage, ps[..n], keys[..n]);
      var added := AddedKeys(f, minBytes, ps, keys);
      var before := AddedKeys(f, minBytes, ps[..n], keys[..n]);
      forall k | k in added ensures k in before || (Oversized(f, minBytes, ps[n]) && k == AsciiBytes(keys[n])) {
        var i :| 0 <= i < |ps| && Oversized(f, minBytes, ps[i]) && k == AsciiBytes(keys[i]);
        if i < n {
          assert ps[..n][i] == ps[i] && keys[..n][i] == keys[i];
        }
      }
      forall k | k in before ensures k in added {
        var i :| 0 <= i < n && Oversized(f, minBytes, ps[..n][i]) && k == AsciiBytes(keys[..n][i]);
        assert ps[..n][i] == ps[i] && keys[..n][i] == keys[i];
      }
      if Oversized(f, minBytes, ps[n]) {
        assert AsciiBytes(keys[n]) in added;
      }
    }
  }

  /** `encode` leaves every entry that was already stored unchanged. */
  lemma {:induction false} StoredKeepsExisting(f: Serializer, minBytes: int, storage: map<seq<byte>, seq<byte>>,
                                               ps: seq<Payload>, keys: seq<string>, k: seq<byte>)
    requires |keys| == |ps| && FreshKeys(storage, keys) && k in storage
    ensures k in Stored(f, minBytes, storage, ps, keys) && Stored(f, minBytes, storage, ps, keys)[k] == storage[k]
  {
    if ps != [] {
      var n := |ps| - 1;
      assert FreshKeys(storage, keys[..n]);
      StoredKeepsExisting(f, minBytes, storage, ps[..n], keys[..n], k);
    }
  }

  /** Each oversized payload's serialisation is stored under its own key. */
  lemma {:induction false} StoredBlob(f: Serializer, minBytes: int, storage: map<seq<byte>, seq<byte>>,
                                      ps: seq<Payload>, keys: seq<string>, i: nat)
    requires |keys| == |ps| && FreshKeys(storage, keys)
    requires i < |ps| && Oversized(f, minBytes, ps[i])
    ensures AsciiBytes(keys[i]) in Stored(f, minBytes, storage, ps, keys)
    ensures Stored(f, minBytes, storage, ps, keys)[AsciiBytes(keys[i])] == f.serialize(ps[i])
  {
    var n := |ps| - 1;
    if i < n {
      assert FreshKeys(storage, keys[..n]);
      assert ps[..n][i] == ps[i] && keys[..n][i] == keys[i];
      StoredBlob(f, minBytes, storage, ps[..n], keys[..n], i);
      AsciiBytesInjective(keys[i], keys[n]);
    }
  }

  /** When nothing is oversized, `encode` writes nothing at all. */
  lemma {:induction false} SmallWritesNothing(f: Serializer, minBytes: int, storage: map<seq<byte>, seq<byte>>,
                                              ps: seq<Payload>, keys: seq<string>)
    requires |keys| == |ps| && forall i :: 0 <= i < |keys| ==> IsAsciiString(keys[i])
    requires forall i :: 0 <= i < |ps| ==> !Oversized(f, minBytes, ps[i])
    ensures Stored(f, minBytes, storage, ps, keys) == storage
  {
    if ps != [] {
      var n := |ps| - 1;
      SmallWritesNothing(f, minBytes, storage, ps[..n], keys[..n]);
    }
  }

  // ------------------------------------------------------------- decoding

  datatype CodecError =
    | UnicodeDecodeError             // a marker value or a key is not UTF-8
    | FileNotFound(key: seq<byte>)   // no blob is stored under the key
    | ParseError(key: seq<byte>)     // the stored blob is not a payload

  /** `p.metadata.get(MarkerKey, b"").decode() == "v1"`, with its decoding error. */
  function MarkerCheck(p: Payload): (r: Result<bool, CodecError>)
    ensures r == Success(true) <==> Marked(p)
    ensures r == Success(false) <==> Unmarked(p)
  {
    if MarkerKey !in p.metadata then Success(false)
    else if !ValidUtf8(p.metadata[MarkerKey]) then Failure(UnicodeDecodeError)
    else Success(p.metadata[MarkerKey] == MarkerValue)
  }

  function DecodeOne(f: Serializer, storage: map<seq<byte>, seq<byte>>, p: Payload): Result<Payload, CodecError> {
    var marked :- MarkerCheck(p);
    if !marked then Success(p)
    else if !ValidUtf8(p.data) then Failure(UnicodeDecodeError)
    else if p.data !in storage then Failure(FileNotFound(p.data))
    else match f.parse(storage[p.data])
      case None => Failure(ParseError(p.data))
      case Some(q) => Success(q)
  }

  /** What `decode` returns: every payload decoded, or the first failure. */
  function Decoded(f: Serializer, storage: map<seq<byte>, seq<byte>>, ps: seq<Payload>): Result<seq<Payload>, CodecError> {
    if ps == [] then Success([])
    else
      var init :- Decoded(f, storage, ps[..|ps| - 1]);
      var last :- DecodeOne(f, storage, ps[|ps| - 1]);
      Success(init + [last])
  }

  /**
   * `decode` succeeds exactly when every payload decodes; it then returns one
   * result per input, in order; otherwise it reports the first failure.
   */
  lemma {:induction false} DecodedElementwise(f: Serializer, storage: map<seq<byte>, seq<byte>>, ps: seq<Payload>)
    ensures Decoded(f, storage, ps).Success? <==> forall i :: 0 <= i < |ps| ==> DecodeOne(f, storage, ps[i]).Success?
    ensures Decoded(f, storage, ps).Success? ==>
      var out := Decoded(f, storage, ps).value;
      |out| == |ps| && forall i :: 0 <= i < |ps| ==> out[i] == DecodeOne(f, storage, ps[i]).value
    ensures Decoded(f, storage, ps).Failure? ==>
      exists j :: 0 <= j < |ps| && DecodeOne(f, storage, ps[j]) == Failure(Decoded(f, storage, ps).error)
        && forall i :: 0 <= i < j ==> DecodeOne(f, storage, ps[i]).Success?
  {
    if ps != [] {
      var n := |ps| - 1;
      DecodedElementwise(f, storage, ps[..n]);
      assert forall i :: 0 <= i < n ==> ps[..n][i] == ps[i];
      var init := Decoded(f, storage, ps[..n]);
      if init.Failure? {
        assert !DecodeOne(f, storage, ps[..n][0]).Success? || exists j :: 0 <= j < n && DecodeOne(f, storage, ps[j]).Failure?;
      }
    }
  }

  /** A reference whose blob is missing makes `decode` fail: it is never passed through. */
  lemma MissingBlobFails(f: Serializer, storage: map<seq<byte>, seq<byte>>, ps: seq<Payload>, i: nat)
    requires i < |ps| && Marked(ps[i]) && ps[i].data !in storage
    ensures Decoded(f, storage, ps).Failure?
  {
    DecodedElementwise(f, storage, ps);
  }

  /** A payload without the marker comes out of `decode` as it went in. */
  lemma UnmarkedPassThrough(f: Serializer, storage: map<seq<byte>, seq<byte>>, ps: seq<Payload>)
    requires forall i :: 0 <= i < |ps| ==> Unmarked(ps[i])
    ensures Decoded(f, storage, ps) == Success(ps)
  {
    DecodedElementwise(f, storage, ps);
    var out := Decoded(f, storage, ps).value;
    assert out == ps;
  }

  /**
   * The round trip: decoding, against the storage `encode` leaves behind, what
   * `encode` returned gives the original payloads back — provided the format's
   * parse undoes its serialise and no payload small enough to be copied
   * already carries the marker.
   */
  lemma RoundTrip(f: Serializer, minBytes: int, storage: map<seq<byte>, seq<byte>>,
                  ps: seq<Payload>, keys: seq<string>)
    requires Lawful(f)
    requires |keys| == |ps| && FreshKeys(storage, keys)
    requires forall i :: 0 <= i < |ps| && !Oversized(f, minBytes, ps[i]) ==> Unmarked(ps[i])
    ensures Decoded(f, Stored(f, minBytes, storage, ps, keys), Encoded(f, minBytes, ps, keys)) == Success(ps)
  {
    var st := Stored(f, minBytes, storage, ps, keys);
    var enc := Encoded(f, minBytes, ps, keys);
    forall i | 0 <= i < |ps| ensures DecodeOne(f, st, enc[i]) == Success(ps[i]) {
      if Oversized(f, minBytes, ps[i]) {
        StoredBlob(f, minBytes, storage, ps, keys, i);
        assert enc[i] == Reference(keys[i]);
        assert Marked(enc[i]);
        AsciiIsValidUtf8(AsciiBytes(keys[i]));
        assert f.parse(st[enc[i].data]) == Some(ps[i]);
      }
    }
    DecodedElementwise(f, st, enc);
    assert Decoded(f, st, enc).value == ps;
  }

  // ------------------------------------------------------------ the codec

  class Codec {
    const minBytes: int
    const format: Serializer
    /** The payload directory: file key bytes to file contents. */
    var storage: map<seq<byte>, seq<byte>>

    constructor (minBytes: int, format: Serializer, storage: map<seq<byte>, seq<byte>>)
      ensures this.minBytes == minBytes && this.format == format && this.storage == storage
    {
      this.minBytes := minBytes;
      this.format := format;
      this.storage := storage;
    }

    /** Write one payload to storage under a fresh key and return its reference. */
    method EncodePayload(payload: Payload, key: string) returns (out: Payload)
      requires IsAsciiString(key) && AsciiBytes(key) !in storage
      modifies this
      ensures storage == old(storage)[AsciiBytes(key) := format.serialize(payload)]
      ensures out.metadata == map[EncodingKey := EncodingValue, MarkerKey := MarkerValue]
      ensures out.data == AsciiBytes(key)
    {
      storage := storage[AsciiBytes(key) := format.serialize(payload)];
      out := Reference(key);
    }

    method Encode(payloads: seq<Payload>, keys: seq<string>) returns (out: seq<Payload>)
      requires |keys| == |payloads| && FreshKeys(storage, keys)
      modifies this
      ensures |out| == |payloads|
      ensures forall i :: 0 <= i < |payloads| ==>
        out[i] == if ByteSize(format, payloads[i]) > minBytes then Reference(keys[i]) else payloads[i]
      ensures out == Encoded(format, minBytes, payloads, keys)
      ensures storage == Stored(format, minBytes, old(storage), payloads, keys)
    {
      out := [];
      var i := 0;
      while i < |payloads|
        invariant 0 <= i <= |payloads|
        invariant out == Encoded(format, minBytes, payloads[..i], keys[..i])
        invariant storage == Stored(format, minBytes, old(storage), payloads[..i], keys[..i])
      {
        assert payloads[..i + 1][..i] == payloads[..i] && keys[..i + 1][..i] == keys[..i];
        var p := payloads[i];
        if ByteSize(format, p) > minBytes {
          assert AsciiBytes(keys[i]) !in storage by {
            StoredKeys(format, minBytes, old(storage), payloads[..i], keys[..i]);
            forall j | 0 <= j < i ensures AsciiBytes(keys[..i][j]) != AsciiBytes(keys[i]) {
              AsciiBytesInjective(keys[j], keys[i]);
            }
          }
          var encoded := EncodePayload(p, keys[i]);
          out := out + [encoded];
        } else {
          out := out + [p];
        }
        i := i + 1;
      }
      assert payloads[..i] == payloads && keys[..i] == keys;
    }

    /** Decode a list of payloads; storage is only read. */
    method Decode(payloads: seq<Payload>) returns (r: Result<seq<Payload>, CodecError>)
      ensures r == Decoded(format, storage, payloads)
    {
      var out: seq<Payload> := [];
      var i := 0;
      while i < |payloads|
        invariant 0 <= i <= |payloads|
        invariant Decoded(format, storage, payloads[..i]) == Success(out)
      {
        assert payloads[..i + 1][..i] == payloads[..i];
        var p := payloads[i];
        var marked := MarkerCheck(p);
        if marked.Failure? {
          PrefixFailure(format, storage, payloads, i + 1);
          return Failure(marked.error);
        }
        if !marked.value {
          out := out + [p];
          i := i + 1;
          continue;
        }
        var d := DecodeOne(format, storage, p);
        if d.Failure? {
          PrefixFailure(format, storage, payloads, i + 1);
          return Failure(d.error);
        }
        out := out + [d.value];
        i := i + 1;
      }
      assert payloads[..i] == payloads;
      r := Success(out);
    }
  }

  /** Once a prefix fails, so does the whole list, with the same error. */
  lemma {:induction false} PrefixFailure(f: Serializer, storage: map<seq<byte>, seq<byte>>, ps: seq<Payload>, k: nat)
    requires k <= |ps| && Decoded(f, storage, ps[..k]).Failure?
    ensures Decoded(f, storage, ps) == Decoded(f, storage, ps[..k])
    decreases |ps| - k
  {
    if k < |ps| {
      assert ps[..k + 1][..k] == ps[..k];
      PrefixFailure(f, storage, ps, k + 1);
    } else {
      assert ps[..k] == ps;
    }
  }
}
