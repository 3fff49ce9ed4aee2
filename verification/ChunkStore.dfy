/** Splitting a file into chunks, keeping chunks under their paths, and merging them again. */
module ChunkStore {
  import opened Arithmetic
  import opened Bounded

  // ----- splitting and joining as functions -----

  function Split(content: Bytes, size: nat): seq<Bytes>
    requires size > 0
    decreases |content|
  {
    if content == [] then []
    else if |content| <= size then [content]
    else [content[..size]] + Split(content[size..], size)
  }

  lemma {:induction false} JoinSplit(content: Bytes, size: nat)
    requires size > 0
    ensures Concat(Split(content, size)) == content
    decreases |content|
  {
    if |content| > size {
      JoinSplit(content[size..], size);
      assert content == content[..size] + content[size..];
    } else if content != [] {
      assert Split(content, size)[1..] == [];
    }
  }

  /** Chunk i holds the bytes from i * size on; only the last may be short, and none is empty. */
  lemma {:induction false} SplitAt(content: Bytes, size: nat, i: nat)
    requires size > 0 && i < |Split(content, size)|
    ensures i * size < |content|
    ensures Split(content, size)[i] == content[i * size..Min((i + 1) * size, |content|)] != []
    ensures i < |Split(content, size)| - 1 ==> |Split(content, size)[i]| == size
    decreases |content|
  {
    if |content| > size && i > 0 {
      SplitAt(content[size..], size, i - 1);
      assert (i - 1) * size + size == i * size && i * size + size == (i + 1) * size;
    }
  }

  lemma {:induction false} SplitCount(content: Bytes, size: nat)
    requires size > 0
    ensures |Split(content, size)| == (|content| + size - 1) / size
    decreases |content|
  {
    var n := |content|;
    if n == 0 {
      DivisionUnique(size - 1, size, 0, size - 1);
    } else if n <= size {
      DivisionUnique(n + size - 1, size, 1, n - 1);
    } else {
      SplitCount(content[size..], size);
      var q, r := (n - 1) / size, (n - 1) % size;
      assert n - 1 == q * size + r && (q + 1) * size == q * size + size;
      DivisionUnique(n + size - 1, size, q + 1, r);
    }
  }

  // ----- chunk paths -----

  function Digit(d: nat): char
    requires d < 10
  {
    '0' + d as char
  }

  function Decimal(n: nat): string {
    if n < 10 then [Digit(n)] else Decimal(n / 10) + [Digit(n % 10)]
  }

  /** Filled with zeros on the left up to the width. */
  function ZeroFill(s: string, width: nat): string
    decreases width - |s|
  {
    if |s| >= width then s else ZeroFill("0" + s, width)
  }

  function ChunkPath(base: string, fileHash: string, index: nat): string {
    base + "/" + fileHash[..Min(2, |fileHash|)] + "/" + fileHash + ".chunk." + ZeroFill(Decimal(index), 6)
  }

  predicate IsDigits(s: string) { forall i | 0 <= i < |s| :: '0' <= s[i] <= '9' }

  function Value(s: string): nat
    requires IsDigits(s)
  {
    if s == "" then 0 else 10 * Value(s[..|s| - 1]) + (s[|s| - 1] - '0') as nat
  }

  lemma {:induction false} DecimalValue(n: nat)
    ensures IsDigits(Decimal(n)) && Value(Decimal(n)) == n
  {
    if n >= 10 {
      DecimalValue(n / 10);
      assert Decimal(n)[..|Decimal(n)| - 1] == Decimal(n / 10);
    } else {
      assert Decimal(n)[..0] == "";
    }
  }

  lemma {:induction false} LeadingZero(s: string)
    requires IsDigits(s)
    ensures IsDigits("0" + s) && Value("0" + s) == Value(s)
    decreases |s|
  {
    if s == "" {
      assert ("0" + s)[..0] == "" && ("0" + s)[0] == '0';
      assert Value("0" + s) == 10 * Value(("0" + s)[..0]);
    } else {
      LeadingZero(s[..|s| - 1]);
      assert ("0" + s)[..|s|] == "0" + s[..|s| - 1];
    }
  }

  lemma {:induction false} ZeroFillValue(s: string, width: nat)
    requires IsDigits(s)
    ensures IsDigits(ZeroFill(s, width)) && Value(ZeroFill(s, width)) == Value(s)
    decreases width - |s|
  {
    if |s| < width {
      LeadingZero(s);
      ZeroFillValue("0" + s, width);
    }
  }

  /** Two chunks of one file never share a path, not even beyond six digits. */
  lemma ChunkPathInjective(base: string, fileHash: string, i: nat, j: nat)
    requires ChunkPath(base, fileHash, i) == ChunkPath(base, fileHash, j)
    ensures i == j
  {
    var prefix := base + "/" + fileHash[..Min(2, |fileHash|)] + "/" + fileHash + ".chunk.";
    var a, b := ZeroFill(Decimal(i), 6), ZeroFill(Decimal(j), 6);
    assert (prefix + a)[|prefix|..] == a && (prefix + b)[|prefix|..] == b;
    DecimalValue(i);
    DecimalValue(j);
    ZeroFillValue(Decimal(i), 6);
    ZeroFillValue(Decimal(j), 6);
  }

  lemma {:induction false} ZeroFillLength(s: string, width: nat)
    ensures |ZeroFill(s, width)| == Max(|s|, width)
    decreases width - |s|
  {
    if |s| < width { ZeroFillLength("0" + s, width); }
  }

  /** A path reads: the directory, the first two letters of the hash, the hash, and the number in at least six digits. */
  lemma ChunkPathReads(base: string, fileHash: string, i: nat)
    requires |fileHash| >= 2
    ensures var path, prefix := ChunkPath(base, fileHash, i), base + "/" + fileHash[..2] + "/" + fileHash + ".chunk.";
      && prefix <= path && |path| >= |prefix| + 6
      && IsDigits(path[|prefix|..]) && Value(path[|prefix|..]) == i
  {
    var path, prefix := ChunkPath(base, fileHash, i), base + "/" + fileHash[..2] + "/" + fileHash + ".chunk.";
    assert path[|prefix|..] == ZeroFill(Decimal(i), 6);
    DecimalValue(i);
    ZeroFillValue(Decimal(i), 6);
    ZeroFillLength(Decimal(i), 6);
  }

  /** Files whose hashes have equal length, as all do, share no path. */
  lemma FilesShareNoPath(base: string, one: string, other: string, i: nat, j: nat)
    requires |one| == |other| && ChunkPath(base, one, i) == ChunkPath(base, other, j)
    ensures one == other && i == j
  {
    var n, m := |base| + 1, Min(2, |one|);
    var at := n + m + 1;
    assert ChunkPath(base, one, i)[at..at + |one|] == one;
    assert ChunkPath(base, other, j)[at..at + |one|] == other;
    ChunkPathInjective(base, one, i, j);
  }

  // ----- merging -----

  type Store = map<string, Bytes>

  function ReadChunk(store: Store, base: string, fileHash: string, i: nat): Bytes {
    var path := ChunkPath(base, fileHash, i);
    if path in store then store[path] else []
  }

  function WriteChunk(store: Store, base: string, fileHash: string, i: nat, data: Bytes): Store {
    store[ChunkPath(base, fileHash, i) := data]
  }

  lemma WriteThenRead(store: Store, base: string, fileHash: string, i: nat, data: Bytes, j: nat)
    ensures ReadChunk(WriteChunk(store, base, fileHash, i, data), base, fileHash, j)
            == if i == j then data else ReadChunk(store, base, fileHash, j)
  {
    if i != j && ChunkPath(base, fileHash, i) == ChunkPath(base, fileHash, j) {
      ChunkPathInjective(base, fileHash, i, j);
      assert false;
    }
  }

  predicate AllPresent(store: Store, base: string, fileHash: string, total: nat) {
    forall i: nat | i < total :: ReadChunk(store, base, fileHash, i) != []
  }

  function Chunks(store: Store, base: string, fileHash: string, total: nat): seq<Bytes> {
    seq(total, i requires 0 <= i => ReadChunk(store, base, fileHash, i))
  }

  class ChunkManager {
    const chunkSize: nat
    var store: Store

    constructor (chunkSize: nat)
      ensures this.chunkSize == chunkSize && store == map[]
    {
      this.chunkSize := chunkSize;
      store := map[];
    }

    /** `content` is the file behind the input stream, which turns bad once a read comes back short. */
    method SplitFile(content: Bytes) returns (chunks: seq<Bytes>)
      requires chunkSize > 0
      ensures chunks == Split(content, chunkSize)
    {
      chunks := [];
      var position, good := 0, true;
      while good
        invariant position <= |content|
        invariant good ==> chunks + Split(content[position..], chunkSize) == Split(content, chunkSize)
        invariant !good ==> chunks == Split(content, chunkSize)
        decreases good, |content| - position
      {
        ghost var rest := content[position..];
        var bytesRead := Min(chunkSize, |content| - position);
        good := bytesRead == chunkSize;
        if bytesRead > 0 {
          var chunk := content[position..position + bytesRead];
          assert chunk == rest[..bytesRead] && content[position + bytesRead..] == rest[bytesRead..];
          if |rest| <= chunkSize {
            assert chunk == rest && rest[bytesRead..] == [];
          }
          chunks := chunks + [chunk];
        }
        position := position + bytesRead;
      }
    }

    method WriteChunkFile(base: string, fileHash: string, i: nat, data: Bytes)
      modifies this
      ensures store == WriteChunk(old(store), base, fileHash, i, data)
    {
      store := store[ChunkPath(base, fileHash, i) := data];
    }

    /** Succeeds exactly if every chunk is there and not empty, and then returns their concatenation. */
    method MergeChunks(base: string, fileHash: string, totalChunks: nat) returns (ok: bool, output: Bytes)
      ensures ok <==> AllPresent(store, base, fileHash, totalChunks)
      ensures ok ==> output == Concat(Chunks(store, base, fileHash, totalChunks))
    {
      ghost var all := Chunks(store, base, fileHash, totalChunks);
      output := [];
      for i := 0 to totalChunks
        invariant forall j: nat | j < i :: ReadChunk(store, base, fileHash, j) != []
        invariant output + Concat(all[i..]) == Concat(all)
      {
        var data := ReadChunk(store, base, fileHash, i);
        if data == [] { return false, output; }
        assert all[i..][0] == data && all[i..][1..] == all[i + 1..];
        output := output + data;
      }
      return true, output;
    }
  }
}
