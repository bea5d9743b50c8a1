/** Signed records: what a compact line decodes to, and the staged verification
    that sets a record's flags. */
module Records {
  import opened Basics

  datatype Event = Event(cls: string, id: string, dir: string)

  /** A type name the format does not define. */
  type OtherName = s: string | s != "open" && s != "activity" && s != "heartbeat" && s != "close"

  /** The `type` member of a payload, one value for each string it can be. */
  datatype RecordType = Open | Activity | Heartbeat | Close | Other(name: OtherName)

  datatype Decision = Decision(policy: string)

  datatype Payload = Payload(
    v: int, typ: RecordType, run: string, recorder: string, key: string,
    seqno: int, prev: string, ts: string,
    hmax: int, htol: int, cpNonce: string,
    event: Option<Event>, decision: Option<Decision>,
    count: int, head: string)

  const EMPTY_PAYLOAD := Payload(0, Other(""), "", "", "", 0, "", "", 0, 0, "", None, None, 0, "")

  /** JSON decoding fills a payload and may still report an error. */
  datatype Decoded = Decoded(payload: Payload, ok: bool)

  /** The decoded body of a signed tree head. */
  datatype SignedHead = SignedHead(log: string, root: string, size: int)

  /** The library code the checker calls, uninterpreted. Signature verification
      takes a public key, a message and a signature; times are nanoseconds. */
  datatype World = World(
    sha: HashFn,
    decode: Bytes -> Decoded,
    canonical: Bytes -> bool,
    schema: (Bytes, RecordType) -> bool,
    verify: (Bytes, Bytes, Bytes) -> bool,
    time: string -> Option<int>,
    stdBase64: string -> Option<Bytes>,
    signedHead: Bytes -> Option<SignedHead>)

  const SIGNATURE_SIZE: nat := 64

  /** A log line either fails the compact form or yields two byte segments. */
  datatype CompactLine = Malformed | Segments(payload: Bytes, signature: Bytes)

  datatype Record = Record(
    raw: Bytes, signature: Bytes, payload: Payload,
    lineErr: bool, parseErr: bool,
    canonicalOK: bool, schemaOK: bool, signatureOK: bool, signatureUV: bool,
    hash: string)

  function ParseLine(w: World, line: CompactLine): Record {
    match line
    case Malformed => Record([], [], EMPTY_PAYLOAD, true, false, false, false, false, false, "")
    case Segments(raw, sig) =>
      var d := w.decode(raw);
      Record(raw, sig, d.payload, false, !d.ok, false, false, false, false, Hex(w.sha(raw)))
  }

  /** Everything a record can look like once it has been loaded and verified
      against published keys: the hash and the payload are functions of the
      stored bytes, and the flags are staged. */
  ghost predicate Loaded(w: World, keys: map<string, Bytes>, r: Record) {
    && (r.lineErr ==> r.raw == [] && r.payload == EMPTY_PAYLOAD && r.hash == "" && !r.parseErr)
    && (!r.lineErr ==>
          && r.hash == Hex(w.sha(r.raw))
          && r.payload == w.decode(r.raw).payload
          && r.parseErr == !w.decode(r.raw).ok)
    && (r.signatureOK <==>
          && !r.lineErr && !r.parseErr
          && ToLower(r.payload.key) in keys
          && |r.signature| == SIGNATURE_SIZE
          && w.verify(keys[ToLower(r.payload.key)], r.raw, r.signature))
    && (r.canonicalOK <==> r.signatureOK && w.canonical(r.raw))
    && (r.schemaOK <==> r.canonicalOK && w.schema(r.raw, r.payload.typ))
    && (r.signatureUV <==> !r.lineErr && !r.parseErr && ToLower(r.payload.key) !in keys)
  }

  /** The flags are staged, and an unverifiable record is never a verified one. */
  lemma FlagsAreStaged(w: World, keys: map<string, Bytes>, r: Record)
    requires Loaded(w, keys, r)
    ensures r.schemaOK ==> r.canonicalOK
    ensures r.canonicalOK ==> r.signatureOK
    ensures r.signatureOK || r.signatureUV ==> !r.lineErr && !r.parseErr
    ensures !(r.signatureOK && r.signatureUV)
  {
  }

  /** The mutable record: parsing fills the bytes, the hash and the payload;
      verification then sets the flags one stage at a time. */
  class RecordObject {
    var raw: Bytes
    var signature: Bytes
    var payload: Payload
    var lineErr: bool
    var parseErr: bool
    var canonicalOK: bool
    var schemaOK: bool
    var signatureOK: bool
    var signatureUV: bool
    var hash: string

    function View(): Record
      reads this
    {
      Record(raw, signature, payload, lineErr, parseErr, canonicalOK, schemaOK, signatureOK, signatureUV, hash)
    }

    constructor (w: World, line: CompactLine)
      ensures View() == ParseLine(w, line)
    {
      raw, signature, payload, hash := [], [], EMPTY_PAYLOAD, "";
      lineErr, parseErr := false, false;
      canonicalOK, schemaOK, signatureOK, signatureUV := false, false, false, false;
      match line {
        case Malformed => lineErr := true;
        case Segments(p, s) =>
          raw, signature, hash := p, s, Hex(w.sha(p));
          payload, parseErr := w.decode(p).payload, !w.decode(p).ok;
      }
    }

    /** Verification keeps the parsed part and ends in a loaded record. */
    method Verify(w: World, keys: map<string, Bytes>)
      requires exists line :: View() == ParseLine(w, line)
      modifies this
      ensures Loaded(w, keys, View())
      ensures raw == old(raw) && signature == old(signature) && payload == old(payload) && hash == old(hash)
      ensures lineErr == old(lineErr) && parseErr == old(parseErr)
    {
      if lineErr || parseErr {
        return;
      }
      if ToLower(payload.key) !in keys {
        signatureUV := true;
        return;
      }
      if |signature| != SIGNATURE_SIZE {
        return;
      }
      if !w.verify(keys[ToLower(payload.key)], raw, signature) {
        return;
      }
      signatureOK := true;
      if !w.canonical(raw) {
        return;
      }
      canonicalOK := true;
      if !w.schema(raw, payload.typ) {
        return;
      }
      schemaOK := true;
    }
  }
}
