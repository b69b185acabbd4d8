/** Content identity of files: the digest that decides whether two files are the same content.

    SHA-256 is a parameter, known only by the law of incremental hashing; a file is seen through the three calls the
    program makes on it: its metadata, its stream of reads, and a read of the whole. */
module FileHash {
  import opened Wrappers
  import opened EolNormalize

  /** `Sha256::new`, `update` and `finalize`. */
  datatype Hasher<!S, D> = Hasher(init: S, update: (S, Bytes) -> S, finalize: S -> D) {
    function Digest(b: Bytes): D {
      finalize(update(init, b))
    }
  }

  /** Feeding a message in two parts is feeding it whole. */
  ghost predicate Incremental<S(!new), D>(h: Hasher<S, D>) {
    && (forall s :: h.update(s, []) == s)
    && (forall s, x, y :: h.update(h.update(s, x), y) == h.update(s, x + y))
  }

  ghost predicate CollisionFree<S, D>(h: Hasher<S, D>) {
    forall x, y :: h.Digest(x) == h.Digest(y) ==> x == y
  }

  /** Above this size a file is hashed raw. */
  const MAX_NORMALIZE_BYTES := 8 * 1024 * 1024

  const BUFFER_BYTES := 8192

  datatype IoError = IoError(code: int)

  /** The outcomes of successive reads of an open file; after the last one every read returns nothing. */
  type Reads = seq<Result<Bytes, IoError>>

  /** What the reads deliver up to the first empty read or the first error. */
  function Delivered(outcomes: Reads): Result<Bytes, IoError> {
    if outcomes == [] then Ok([])
    else match outcomes[0]
      case Err(e) => Err(e)
      case Ok(chunk) =>
        if chunk == [] then Ok([])
        else match Delivered(outcomes[1..])
          case Err(e) => Err(e)
          case Ok(rest) => Ok(chunk + rest)
  }

  /** Hashes an open file chunk by chunk: the digest of everything delivered, or the error that stopped it. */
  method HashFileBytesStreaming<S(!new), D>(h: Hasher<S, D>, file: Result<Reads, IoError>)
    returns (r: Result<D, IoError>)
    requires Incremental(h)
    ensures file.Err? ==> r == Err(file.error)
    ensures file.Ok? && Delivered(file.value).Err? ==> r == Err(Delivered(file.value).error)
    ensures file.Ok? && Delivered(file.value).Ok? ==> r == Ok(h.Digest(Delivered(file.value).value))
  {
    if file.Err? { return Err(file.error); }
    var outcomes := file.value;
    var hasher := h.init;
    ghost var hashed: Bytes := [];
    var i := 0;
    assert outcomes[i..] == outcomes;
    assert Delivered(outcomes).Ok? ==> hashed + Delivered(outcomes).value == Delivered(outcomes).value;
    while i < |outcomes|
      invariant i <= |outcomes|
      invariant hasher == h.update(h.init, hashed)
      invariant Delivered(outcomes) == match Delivered(outcomes[i..]) case Ok(rest) => Ok(hashed + rest) case Err(e) => Err(e)
    {
      assert outcomes[i..][1..] == outcomes[i + 1..];
      if outcomes[i].Err? { return Err(outcomes[i].error); }
      var chunk := outcomes[i].value;
      if chunk == [] {
        assert hashed + [] == hashed;
        return Ok(h.finalize(hasher));
      }
      hasher := h.update(hasher, chunk);
      ghost var before := hashed;
      hashed := hashed + chunk;
      assert Delivered(outcomes[i + 1..]).Ok? ==>
          before + (chunk + Delivered(outcomes[i + 1..]).value) == hashed + Delivered(outcomes[i + 1..]).value;
      i := i + 1;
    }
    assert hashed + [] == hashed;
    r := Ok(h.finalize(hasher));
  }

  /** What the digest is taken of. */
  function Identity(b: Bytes): Bytes {
    if ValidUtf8(b) && |b| <= MAX_NORMALIZE_BYTES then NormalizeLineEndings(b) else b
  }

  function ComputeBytesHash<S, D>(h: Hasher<S, D>, b: Bytes): D {
    h.Digest(Identity(b))
  }

  /** A file on disk, as the program's three calls see it. */
  datatype FileView = FileView(metadataLen: Option<nat>, stream: Result<Reads, IoError>, whole: Result<Bytes, IoError>)

  method ComputeFileHash<S(!new), D>(h: Hasher<S, D>, file: FileView) returns (r: Result<D, IoError>)
    requires Incremental(h)
    ensures r == FileHashOf(h, file)
  {
    var tooLarge := match file.metadataLen case Some(len) => len > MAX_NORMALIZE_BYTES case None => true;
    if tooLarge {
      r := HashFileBytesStreaming(h, file.stream);
      return;
    }
    if file.whole.Err? { return Err(file.whole.error); }
    r := Ok(ComputeBytesHash(h, file.whole.value));
  }

  /** The hash a file gets, read off its views. */
  function FileHashOf<S, D>(h: Hasher<S, D>, file: FileView): Result<D, IoError> {
    if file.metadataLen.Some? && file.metadataLen.value <= MAX_NORMALIZE_BYTES then
      match file.whole
      case Err(e) => Err(e)
      case Ok(b) => Ok(ComputeBytesHash(h, b))
    else
      match file.stream
      case Err(e) => Err(e)
      case Ok(outcomes) =>
        match Delivered(outcomes)
        case Err(e) => Err(e)
        case Ok(b) => Ok(h.Digest(b))
  }

  // ---- Streaming and whole-buffer hashing agree ---------------------------------------

  function Concat(chunks: seq<Bytes>): Bytes {
    if chunks == [] then [] else chunks[0] + Concat(chunks[1..])
  }

  function Successes(chunks: seq<Bytes>): (outcomes: Reads)
    ensures |outcomes| == |chunks| && forall i :: 0 <= i < |chunks| ==> outcomes[i] == Ok(chunks[i])
  {
    seq(|chunks|, i requires 0 <= i < |chunks| => Ok(chunks[i]))
  }

  /** However a file is cut into non-empty reads, they deliver it. */
  lemma {:induction false} AnyChunkingDelivers(chunks: seq<Bytes>)
    requires forall i :: 0 <= i < |chunks| ==> chunks[i] != []
    ensures Delivered(Successes(chunks)) == Ok(Concat(chunks))
  {
    if chunks == [] {
      assert Successes(chunks) == [];
    } else {
      AnyChunkingDelivers(chunks[1..]);
      assert Successes(chunks)[1..] == Successes(chunks[1..]);
    }
  }

  /** A read that ends the stream: an error, or nothing read. */
  predicate Ends(outcome: Result<Bytes, IoError>) {
    outcome.Err? || outcome.value == []
  }

  /** The stream fails exactly with the error of the read that ends it. */
  lemma {:induction false} StreamFailsIff(outcomes: Reads, e: IoError)
    ensures Delivered(outcomes) == Err(e)
       <==> exists i :: 0 <= i < |outcomes| && outcomes[i] == Err(e) && forall j :: 0 <= j < i ==> !Ends(outcomes[j])
  {
    if outcomes != [] {
      var rest := outcomes[1..];
      StreamFailsIff(rest, e);
      if !Ends(outcomes[0]) {
        if Delivered(rest) == Err(e) {
          var i :| 0 <= i < |rest| && rest[i] == Err(e) && forall j :: 0 <= j < i ==> !Ends(rest[j]);
          assert outcomes[i + 1] == Err(e);
          assert forall j :: 0 < j < i + 1 ==> outcomes[j] == rest[j - 1];
        }
        if i :| 0 <= i < |outcomes| && outcomes[i] == Err(e) && forall j :: 0 <= j < i ==> !Ends(outcomes[j]) {
          assert i > 0 && rest[i - 1] == Err(e);
          assert forall j :: 0 <= j < i - 1 ==> rest[j] == outcomes[j + 1];
        }
      }
    }
  }

  /** A file has a hash exactly when the way its metadata chooses succeeds, and otherwise that way's error. */
  lemma HashFailsIff<S, D>(h: Hasher<S, D>, file: FileView, e: IoError)
    ensures FileHashOf(h, file) == Err(e)
       <==> if file.metadataLen.Some? && file.metadataLen.value <= MAX_NORMALIZE_BYTES then file.whole == Err(e)
            else file.stream == Err(e)
                 || (file.stream.Ok? && exists i :: 0 <= i < |file.stream.value| && file.stream.value[i] == Err(e)
                                          && forall j :: 0 <= j < i ==> !Ends(file.stream.value[j]))
  {
    if file.stream.Ok? {
      StreamFailsIff(file.stream.value, e);
    }
  }

  /** `file` is a file with content `b` that does not change and whose reads succeed. */
  ghost predicate Holds(file: FileView, b: Bytes, chunks: seq<Bytes>) {
    && (forall i :: 0 <= i < |chunks| ==> 0 < |chunks[i]| <= BUFFER_BYTES)
    && Concat(chunks) == b
    && file.stream == Ok(Successes(chunks))
    && file.whole == Ok(b)
  }

  /** On disk or in memory, the same bytes have the same identity, at every size and for every chunking. */
  lemma FileAndBytesAgree<S(!new), D>(h: Hasher<S, D>, file: FileView, b: Bytes, chunks: seq<Bytes>)
    requires Holds(file, b, chunks) && file.metadataLen == Some(|b|)
    ensures FileHashOf(h, file) == Ok(ComputeBytesHash(h, b))
  {
    AnyChunkingDelivers(chunks);
  }

  /** With the metadata missing or stale, the two agree exactly when it puts the file under the cap, or when
      normalization would not have changed the content. */
  lemma FileAndBytesAgreeIff<S(!new), D>(h: Hasher<S, D>, file: FileView, b: Bytes, chunks: seq<Bytes>)
    requires CollisionFree(h) && Holds(file, b, chunks)
    ensures (FileHashOf(h, file) == Ok(ComputeBytesHash(h, b)))
        <==> ((file.metadataLen.Some? && file.metadataLen.value <= MAX_NORMALIZE_BYTES)
              || |b| > MAX_NORMALIZE_BYTES || !ValidUtf8(b) || CR !in b)
  {
    AnyChunkingDelivers(chunks);
    NormalizeKeepsLines(b);
    assert h.Digest(b) == h.Digest(Identity(b)) ==> b == Identity(b);
  }

  // ---- Which contents share an identity -----------------------------------------------

  /** Two small UTF-8 texts share a hash exactly when they have the same lines. */
  lemma SmallTextsHashEqualIff<S, D>(h: Hasher<S, D>, a: Bytes, b: Bytes)
    requires CollisionFree(h)
    requires |a| <= MAX_NORMALIZE_BYTES && |b| <= MAX_NORMALIZE_BYTES && ValidUtf8(a)
    ensures ComputeBytesHash(h, a) == ComputeBytesHash(h, b) <==> UniversalLines(a) == UniversalLines(b)
  {
    SameNormalFormIff(a, b);
    assert h.Digest(Identity(a)) == h.Digest(Identity(b)) ==> Identity(a) == Identity(b);
    if UniversalLines(a) == UniversalLines(b) {
      SameLinesSameUtf8(a, b);
    } else if !ValidUtf8(b) {
      NormalizeKeepsLines(a);
      if NormalizeLineEndings(a) == b {
        SameLinesSameUtf8(a, b);
      }
    }
  }

  /** Content that is not UTF-8 is identified by its bytes, also against text. */
  lemma BinaryHashEqualIff<S, D>(h: Hasher<S, D>, a: Bytes, b: Bytes)
    requires CollisionFree(h) && !ValidUtf8(a)
    ensures ComputeBytesHash(h, a) == ComputeBytesHash(h, b) <==> a == b
  {
    assert h.Digest(Identity(a)) == h.Digest(Identity(b)) ==> Identity(a) == Identity(b);
    NormalizeKeepsLines(b);
    if ValidUtf8(b) {
      SameLinesSameUtf8(NormalizeLineEndings(b), b);
    }
  }

  /** An LF text and a copy of it with some newlines written as CRLF have one identity exactly when the copy still
      fits under the cap. */
  lemma EolCopyHashEqualIff<S, D>(h: Hasher<S, D>, text: Bytes, copy: Bytes)
    requires CollisionFree(h) && ValidUtf8(text) && CR !in text && EolCopy(text, copy)
    ensures ComputeBytesHash(h, text) == ComputeBytesHash(h, copy)
        <==> (|copy| <= MAX_NORMALIZE_BYTES || copy == text)
  {
    EolCopySameLines(text, copy);
    if |copy| <= MAX_NORMALIZE_BYTES {
      SmallTextsHashEqualIff(h, text, copy);
    } else {
      assert Identity(copy) == copy;
      assert Identity(text) == text;
      assert h.Digest(text) == h.Digest(copy) ==> text == copy;
    }
  }
}
