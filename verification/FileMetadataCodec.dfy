/** The file metadata on disk. The number of chunk hashes is written in place of `chunk_count`, and the tags are not
    written at all. */
module FileMetadataCodec {
  import opened Bounded
  import opened Endian
  import opened Wire
  import opened Records

  type i64 = x: int | -0x8000_0000_0000_0000 <= x < 0x8000_0000_0000_0000

  datatype Metadata = Metadata(fileId: Bytes, fileHash: Bytes, filename: Bytes, filePath: Bytes, fileSize: u64,
                               createdAt: i64, modifiedAt: i64, chunkHashes: seq<Bytes>, chunkSize: u32,
                               chunkCount: u32, fileType: Bytes, description: Bytes, tags: seq<Bytes>)

  const STRING := Text(Little)
  const LITTLE64 := UInt(8, Little)
  const METADATA: seq<Shape> :=
    [STRING, STRING, STRING, STRING, LITTLE64, LITTLE64, LITTLE64, TextList(Little), LITTLE32, LITTLE32, STRING, STRING]

  /** Two's complement. */
  function Bits(x: i64): u64 {
    if x < 0 then x + TWO_TO_THE_64 else x
  }

  function Signed(bits: u64): i64 {
    if bits < 0x8000_0000_0000_0000 then bits else bits - TWO_TO_THE_64
  }

  function Fields(m: Metadata): seq<Datum> {
    [Blob(m.fileId), Blob(m.fileHash), Blob(m.filename), Blob(m.filePath), Num(m.fileSize), Num(Bits(m.createdAt)),
     Num(Bits(m.modifiedAt)), Texts(m.chunkHashes), Num(m.chunkSize), Num(|m.chunkHashes| % TWO_TO_THE_32),
     Blob(m.fileType), Blob(m.description)]
  }

  predicate SizesFit(m: Metadata) {
    && Short(m.fileId) && Short(m.fileHash) && Short(m.filename) && Short(m.filePath) && AllShort(m.chunkHashes)
    && Short(m.fileType) && Short(m.description)
  }

  lemma FieldsMatch(m: Metadata)
    ensures Matches(METADATA, Fields(m))
    ensures AllFit(METADATA, Fields(m)) <==> SizesFit(m)
  {
    Powers();
    TextsTyped(Little, m.chunkHashes);
    var f := Fields(m);
    assert Typed(METADATA[0], f[0]) && Typed(METADATA[1], f[1]) && Typed(METADATA[2], f[2]) && Typed(METADATA[3], f[3]);
    assert Typed(METADATA[4], f[4]) && Typed(METADATA[5], f[5]) && Typed(METADATA[6], f[6]) && Typed(METADATA[7], f[7]);
    assert Typed(METADATA[8], f[8]) && Typed(METADATA[9], f[9]) && Typed(METADATA[10], f[10]);
    assert Typed(METADATA[11], f[11]);
    assert (Fits(METADATA[0], f[0]) <==> Short(m.fileId)) && (Fits(METADATA[1], f[1]) <==> Short(m.fileHash));
    assert (Fits(METADATA[2], f[2]) <==> Short(m.filename)) && (Fits(METADATA[3], f[3]) <==> Short(m.filePath));
    assert Fits(METADATA[7], f[7]) <==> AllShort(m.chunkHashes);
    assert (Fits(METADATA[10], f[10]) <==> Short(m.fileType)) && (Fits(METADATA[11], f[11]) <==> Short(m.description));
    assert Fits(METADATA[4], f[4]) && Fits(METADATA[5], f[5]) && Fits(METADATA[6], f[6]);
    assert Fits(METADATA[8], f[8]) && Fits(METADATA[9], f[9]);
  }

  function MetadataOf(f: seq<Datum>): Metadata
    requires Matches(METADATA, f)
  {
    Powers();
    Metadata(f[0].bytes, f[1].bytes, f[2].bytes, f[3].bytes, f[4].value, Signed(f[5].value), Signed(f[6].value),
             TextsOf(Little, f[7]), f[8].value, f[9].value, f[10].bytes, f[11].bytes, [])
  }

  function Serialize(m: Metadata): Bytes {
    FieldsMatch(m);
    Write(METADATA, Fields(m))
  }

  /** `None` where the program would read past the end of the data. */
  function Deserialize(b: Bytes): Option<Metadata> {
    var f := Read(METADATA, b);
    if f.None? then None else Some(MetadataOf(f.value))
  }

  function Normalised(m: Metadata): Metadata {
    m.(chunkCount := |m.chunkHashes| % TWO_TO_THE_32, tags := [])
  }

  lemma MetadataOfFields(m: Metadata)
    ensures Matches(METADATA, Fields(m)) && MetadataOf(Fields(m)) == Normalised(m)
    ensures Fields(Normalised(m)) == Fields(m)
  {
    FieldsMatch(m);
    TextsTyped(Little, m.chunkHashes);
  }

  /** Reading back replaces the chunk count by the number of hashes and drops the tags; once that has happened,
      nothing more changes. */
  lemma RoundTripNormalises(m: Metadata, suffix: Bytes)
    requires SizesFit(m)
    ensures Deserialize(Serialize(m) + suffix) == Some(Normalised(m))
    ensures Serialize(Normalised(m)) == Serialize(m)
  {
    FieldsMatch(m);
    MetadataOfFields(m);
    ReadsBack(METADATA, Fields(m), suffix);
  }

  lemma ReadSizesFit(f: seq<Datum>)
    requires Matches(METADATA, f) && AllFit(METADATA, f)
    ensures SizesFit(MetadataOf(f))
  {
    TextsTyped(Little, TextsOf(Little, f[7]));
    assert Fits(METADATA[0], f[0]) && Fits(METADATA[1], f[1]) && Fits(METADATA[2], f[2]) && Fits(METADATA[3], f[3]);
    assert Fits(METADATA[7], f[7]) && Fits(METADATA[10], f[10]) && Fits(METADATA[11], f[11]);
  }

  lemma RoundTripIsIdentityExactly(m: Metadata, suffix: Bytes)
    ensures Deserialize(Serialize(m) + suffix) == Some(m) <==>
              SizesFit(m) && m.chunkCount == |m.chunkHashes| && m.tags == []
  {
    if SizesFit(m) {
      RoundTripNormalises(m, suffix);
    } else if Deserialize(Serialize(m) + suffix) == Some(m) {
      ReadSizesFit(Read(METADATA, Serialize(m) + suffix).value);
    }
  }
}
