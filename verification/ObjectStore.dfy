/** The content-addressed store: one self-describing file per object, compressed when a look at its beginning says that
    this pays. */
module ObjectStore {
  import opened Index
  import opened Wrappers

  /** How much of a stream is looked at before deciding on the encoding, and how much is copied at a time. */
  const PROBE_BYTES: nat := 131072
  const COPY_BYTES: nat := 32768

  const HEADER_SIZE: nat := 8
  const VERSION: bv8 := 1
  const MAGIC: Bytes := [0x41, 0x42, 0x42, 0x4F]

  datatype Algo = Verbatim | Zstd

  type Result<T> = Wrappers.Result<T, Error>

  datatype Error = Truncated | BadMagic | UnsupportedVersion | UnknownAlgorithm | Undecodable | NoSuchObject | ReadFailed

  /** The compressor and the hash function, as far as the store relies on them. `sample` is what compressing a probe in
      one go gives, `pack` what the streaming encoder writes. */
  datatype Codec = Codec(sample: Bytes -> Bytes, pack: Bytes -> Bytes, unpack: Bytes -> Result<Bytes>,
                         hash: Bytes -> Hash)
  {
    ghost predicate Lossless() {
      forall b: Bytes :: unpack(pack(b)) == Ok(b)
    }

    /** No two contents in play share a hash. */
    ghost predicate Addresses() {
      forall a: Bytes, b: Bytes | hash(a) == hash(b) :: a == b
    }
  }

  // -------------------------------------------------------------- the header

  function AlgoByte(a: Algo): bv8 {
    if a.Zstd? then 1 else 0
  }

  function EncodeHeader(version: bv8, a: Algo): Bytes {
    MAGIC + [version, AlgoByte(a), 0, 0]
  }

  function DecodeHeader(buf: Bytes): Result<Algo> {
    if |buf| < HEADER_SIZE then Err(Truncated)
    else if buf[..4] != MAGIC then Err(BadMagic)
    else if buf[4] != VERSION then Err(UnsupportedVersion)
    else if buf[5] == 0 then Ok(Verbatim)
    else if buf[5] == 1 then Ok(Zstd)
    else Err(UnknownAlgorithm)
  }

  /** A header is understood exactly if it is one this version writes, whatever its two reserved bytes hold. */
  lemma HeadersAreSelfDescribing(buf: Bytes, a: Algo)
    ensures DecodeHeader(buf) == Ok(a) <==> |buf| >= HEADER_SIZE && buf[..6] == EncodeHeader(VERSION, a)[..6]
  {
    var written := EncodeHeader(VERSION, a);
    assert written[..4] == MAGIC && written[4] == VERSION && written[5] == AlgoByte(a);
    if |buf| >= HEADER_SIZE {
      assert buf[..6] == buf[..4] + [buf[4], buf[5]] && written[..6] == written[..4] + [written[4], written[5]];
    }
  }

  // -------------------------------------------------- which encoding to use

  function LastDot(name: string): (i: int)
    ensures -1 <= i < |name|
  {
    if name == "" || name[|name| - 1] == '/' then -1
    else if name[|name| - 1] == '.' then |name| - 1
    else LastDot(name[..|name| - 1])
  }

  /** From the last dot of the last path segment on. */
  function Ext(name: string): string {
    if LastDot(name) < 0 then "" else name[LastDot(name)..]
  }

  function ToLower(s: string): string {
    if s == "" then ""
    else [if 'A' <= s[0] <= 'Z' then 'a' + (s[0] - 'A') else s[0]] + ToLower(s[1..])
  }

  const ALREADY_COMPRESSED := {
    ".zip", ".jar", ".gz", ".xz", ".zst", ".bz2", ".7z", ".rar", ".png", ".jpg", ".jpeg", ".webp",
    ".ogg", ".mp3", ".mp4", ".webm"
  }

  predicate SkipByName(name: string) {
    ToLower(Ext(name)) in ALREADY_COMPRESSED
  }

  /** Compressing has to save a twentieth. */
  predicate Pays(plain: nat, packed: nat) {
    20 * packed <= 19 * plain
  }

  /** What the stream is judged by: its beginning, or all of it if it is short. */
  function Probe(bytes: Bytes): Bytes {
    if |bytes| < PROBE_BYTES then bytes else bytes[..PROBE_BYTES]
  }

  /** A content is compressed unless its name says that it is already, or compressing the probe would not pay. */
  predicate WorthPacking(codec: Codec, name: string, bytes: Bytes) {
    !SkipByName(name) && (bytes == [] || Pays(|Probe(bytes)|, |codec.sample(Probe(bytes))|))
  }

  // ---------------------------------------------------------------- an object

  /** A stream to be stored: its bytes, and after how many of them reading fails, if it does. */
  datatype Source = Source(bytes: Bytes, failsAt: Failing)

  datatype Failing = Never | At(position: nat)

  predicate Fails(src: Source) {
    src.failsAt.At? && src.failsAt.position < |src.bytes|
  }

  function Payload(codec: Codec, a: Algo, plain: Bytes): Bytes {
    if a.Zstd? then codec.pack(plain) else plain
  }

  function FileOf(codec: Codec, a: Algo, plain: Bytes): Bytes {
    EncodeHeader(VERSION, a) + Payload(codec, a, plain)
  }

  /** What a stored file says. */
  function Plain(codec: Codec, file: Bytes): Result<Bytes> {
    match DecodeHeader(file)
    case Err(e) => Err(e)
    case Ok(Verbatim) => Ok(file[HEADER_SIZE..])
    case Ok(Zstd) => codec.unpack(file[HEADER_SIZE..])
  }

  /** Either encoding can be read back. */
  lemma FileIsReadable(codec: Codec, a: Algo, plain: Bytes)
    requires codec.Lossless()
    ensures Plain(codec, FileOf(codec, a, plain)) == Ok(plain)
  {
    var file := FileOf(codec, a, plain);
    assert file[..6] == EncodeHeader(VERSION, a)[..6];
    HeadersAreSelfDescribing(file, a);
    assert file[HEADER_SIZE..] == Payload(codec, a, plain);
  }

  datatype PutResult = PutResult(hash: Hash, size: nat, storedSize: nat, algo: Algo, isNew: bool)

  class Store {
    const codec: Codec

    /** The files by the hash they are named after. */
    var objects: map<Hash, Bytes>

    constructor (codec: Codec)
      ensures this.codec == codec && objects == map[] && Valid()
    {
      this.codec, objects := codec, map[];
    }

    /** Every file holds content with the hash it is named after. */
    ghost predicate Valid()
      reads this
    {
      forall h | h in objects :: Plain(codec, objects[h]).Ok? && codec.hash(Plain(codec, objects[h]).value) == h
    }

    /** Looks at the beginning of the stream to choose an encoding, then writes all of it. */
    method WriteObject(src: Source, name: string) returns (r: Result<(Bytes, PutResult)>)
      ensures r.Err? <==> Fails(src)
      ensures r.Ok? ==>
                var res := r.value.1;
                && r.value.0 == FileOf(codec, res.algo, src.bytes)
                && res.hash == codec.hash(src.bytes) && res.size == |src.bytes| && res.storedSize == |r.value.0|
                && (res.algo.Zstd? <==> WorthPacking(codec, name, src.bytes))
    {
      var n := if |src.bytes| < PROBE_BYTES then |src.bytes| else PROBE_BYTES;
      if src.failsAt.At? && src.failsAt.position < n {
        return Err(ReadFailed);
      }
      var probe, rest := src.bytes[..n], src.bytes[n..];
      var algo := Zstd;
      if SkipByName(name) {
        algo := Verbatim;
      } else if n > 0 && !Pays(n, |codec.sample(probe)|) {
        algo := Verbatim;
      }
      if src.failsAt.At? && src.failsAt.position < |src.bytes| {
        return Err(ReadFailed);
      }
      var stream, sunk, hashed := if n < PROBE_BYTES then probe else probe + rest, [], [];
      assert stream == src.bytes;
      while |hashed| < |stream|
        invariant |hashed| <= |stream| && sunk == hashed == stream[..|hashed|]
      {
        var at := |hashed|;
        var end := if at + COPY_BYTES < |stream| then at + COPY_BYTES else |stream|;
        assert stream[..end] == stream[..at] + stream[at..end];
        sunk, hashed := sunk + stream[at..end], hashed + stream[at..end];
      }
      assert stream[..|hashed|] == stream;
      var payload := if algo.Zstd? then codec.pack(sunk) else sunk;
      var file := EncodeHeader(VERSION, algo) + payload;
      r := Ok((file, PutResult(codec.hash(hashed), |hashed|, HEADER_SIZE + |payload|, algo, false)));
    }

    /** Stores the content once. A stream that fails leaves nothing behind. */
    method Put(src: Source, name: string) returns (r: Result<PutResult>)
      requires Valid() && codec.Lossless()
      modifies this
      ensures Valid()
      ensures r.Err? <==> Fails(src)
      ensures r.Err? ==> objects == old(objects)
      ensures r.Ok? ==>
                var h := codec.hash(src.bytes);
                && r.value.hash == h && r.value.size == |src.bytes|
                && r.value.isNew == (h !in old(objects))
                && (r.value.algo.Zstd? <==> WorthPacking(codec, name, src.bytes))
                && objects == (if h in old(objects) then old(objects)
                               else old(objects)[h := FileOf(codec, r.value.algo, src.bytes)])
                && r.value.storedSize == (if h in old(objects) then 0 else |objects[h]|)
    {
      var written := WriteObject(src, name);
      match written {
        case Err(e) => r := Err(e);
        case Ok((file, res)) =>
          if res.hash in objects {
            r := Ok(res.(isNew := false, storedSize := 0));
          } else {
            FileIsReadable(codec, res.algo, src.bytes);
            objects := objects[res.hash := file];
            r := Ok(res.(isNew := true));
          }
      }
    }

    method Open(h: Hash) returns (r: Result<Bytes>)
      ensures r == if h in objects then Plain(codec, objects[h]) else Err(NoSuchObject)
    {
      if h !in objects {
        return Err(NoSuchObject);
      }
      var file := objects[h];
      if |file| < HEADER_SIZE {
        return Err(Truncated);
      }
      var header := DecodeHeader(file[..HEADER_SIZE]);
      assert file[..HEADER_SIZE][..4] == file[..4];
      match header {
        case Err(e) => r := Err(e);
        case Ok(Verbatim) => r := Ok(file[HEADER_SIZE..]);
        case Ok(Zstd) => r := codec.unpack(file[HEADER_SIZE..]);
      }
    }

    method Delete(h: Hash)
      requires Valid()
      modifies this
      ensures Valid() && objects == old(objects) - {h}
    {
      objects := objects - {h};
    }

    /** Whatever was put before, reading a content's address gives that content, to the byte. */
    lemma OpenReturnsWhatWasPut(content: Bytes)
      requires Valid() && codec.Addresses() && codec.hash(content) in objects
      ensures Plain(codec, objects[codec.hash(content)]) == Ok(content)
    {
      var read := Plain(codec, objects[codec.hash(content)]).value;
      assert codec.hash(read) == codec.hash(content);
    }
  }
}
