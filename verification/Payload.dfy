/** The text a signature was made over (plumbing/object/commit.go and tag.go,
    EncodeWithoutSignature and matchesSource). */
module Payload {
  import opened Options
  import opened Identity
  import opened CommitCodec
  import CommitScanner
  import opened CommitRoundTrip
  import opened SignatureStripper
  import T = TagCodec
  import TagScanner
  import TR = TagRoundTrip

  /** Two identities that print alike. */
  predicate SignatureEqual(a: Signature, b: Signature) {
    a.name == b.name && a.email == b.email && a.when.unix == b.when.unix && FormatZone(a.when.offset) == FormatZone(b.when.offset)
  }

  /** The fields that are part of the signed text agree. */
  predicate SamePayload(a: Commit, b: Commit) {
    && SignatureEqual(a.author, b.author) && SignatureEqual(a.committer, b.committer) && a.message == b.message
    && a.treeHash == b.treeHash && a.encoding == b.encoding && a.parentHashes == b.parentHashes && a.extraHeaders == b.extraHeaders
  }

  /** The object a commit or tag was read from: its text and its id. */
  datatype EncodedObject = EncodedObject(text: string, hash: ObjectID)

  /** Whether reading the source again yields the commit `c` with the id `hash`, apart
      from its signatures. */
  method MatchesSource(c: Commit, hash: ObjectID, src: Option<EncodedObject>) returns (r: bool)
    ensures r <==> SaysTheSame(c, hash, src)
  {
    if src.None? {
      return false;
    }
    var fresh' := CommitScanner.Decode(src.value.text);
    if fresh'.MalformedCommit? {
      return false;
    }
    return hash == src.value.hash && SamePayload(c, fresh'.commit);
  }

  ghost predicate SaysTheSame(c: Commit, hash: ObjectID, src: Option<EncodedObject>) {
    && src.Some? && Decoding(src.value.text).Decoded?
    && hash == src.value.hash && SamePayload(c, Decoding(src.value.text).commit)
  }

  /** The source bytes are used as long as the commit still says what they say. */
  ghost function PayloadOf(c: Commit, hash: ObjectID, src: Option<EncodedObject>): string {
    if SaysTheSame(c, hash, src) then Strip(src.value.text, false, false) else Encoding(c, false)
  }

  /** Commit.EncodeWithoutSignature. */
  method EncodeWithoutSignature(c: Commit, hash: ObjectID, src: Option<EncodedObject>) returns (w: string)
    ensures w == PayloadOf(c, hash, src)
  {
    hide SamePayload, Strip, Decoding, Encoding;
    var matches := MatchesSource(c, hash, src);
    if matches {
      w := StripHeaderSignatures(src.value.text);
    } else {
      w := CommitCodec.Encode(c, false);
    }
  }

  /** A commit read from its text yields exactly the bytes that were signed, although
      reading normalizes its fields, and whatever has been done to its signatures. */
  lemma PayloadIsWhatWasSigned(c: Commit, read: Commit, hash: ObjectID)
    requires Printable(c) && Unsigned(read) == Unsigned(Normal(c))
    ensures PayloadOf(read, hash, Some(EncodedObject(Encoding(c, true), hash))) == Encoding(c, false)
  {
    hide Encoding, Decoding, Strip, NormalIdentity, NormalExtras, Printable;
    DecodeEncode(c);
    StripEncoding(c);
    assert read == Unsigned(Normal(c)).(signature := read.signature, signatureSHA256 := read.signatureSHA256);
  }

  /** A commit that was changed, or whose id was, is printed anew. */
  lemma ChangedCommitIsPrinted(c: Commit, hash: ObjectID, src: EncodedObject)
    requires Decoding(src.text).Decoded? && (hash != src.hash || !SamePayload(c, Decoding(src.text).commit))
    ensures PayloadOf(c, hash, Some(src)) == Encoding(c, false) && PayloadOf(c, hash, None) == Encoding(c, false)
  {
  }

  // ---------- tags ----------

  predicate SameTagPayload(a: T.Tag, b: T.Tag) {
    a.name == b.name && SignatureEqual(a.tagger, b.tagger) && a.message == b.message && a.targetType == b.targetType && a.target == b.target
  }

  ghost predicate TagSaysTheSame(t: T.Tag, hash: ObjectID, src: Option<EncodedObject>) {
    && src.Some? && T.Decoding(src.value.text).Decoded?
    && hash == src.value.hash && SameTagPayload(t, T.Decoding(src.value.text).tag)
  }

  ghost function TagPayloadOf(t: T.Tag, hash: ObjectID, src: Option<EncodedObject>): string {
    if TagSaysTheSame(t, hash, src) then TR.StripTag(src.value.text) else T.Encoding(t, false)
  }

  /** Tag.EncodeWithoutSignature. */
  method EncodeTagWithoutSignature(t: T.Tag, hash: ObjectID, src: Option<EncodedObject>) returns (w: string)
    ensures w == TagPayloadOf(t, hash, src)
  {
    hide SameTagPayload, Strip, TR.StripTag, T.Decoding, T.Encoding;
    if src.Some? {
      var fresh' := TagScanner.Decode(src.value.text);
      if fresh'.Decoded? && hash == src.value.hash && SameTagPayload(t, fresh'.tag) {
        w := TR.StripTagSignatures(src.value.text);
        return;
      }
    }
    w := T.Encode(t, false);
  }

  /** A tag read from its text yields exactly the bytes that were signed, if message and
      signature can be told apart, and only then. */
  lemma TagPayloadIsWhatWasSigned(t: T.Tag, read: T.Tag, hash: ObjectID)
    requires TR.PrintableTag(t) && SameTagPayload(read, TR.NormalTag(t))
    ensures TagPayloadOf(read, hash, Some(EncodedObject(T.Encoding(t, true), hash))) == T.Encoding(t, false) <==> T.Separable(t.message, t.signature)
  {
    hide SameTagPayload, TR.StripTag, T.Decoding, T.Encoding, TR.NormalTag, T.Separable, TR.PrintableTag;
    TR.DecodeEncodeTag(t);
    TR.StripTagIff(t);
  }
}
