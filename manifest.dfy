/**
 * `backup_manifest`: list the backup folder recursively, sort the listing, and write
 * one line `<sha1 hex> <path>\n` per listed path other than the manifest's own name,
 * hashing each file in 4096-byte blocks.
 *
 * SHA-1 and its hex encoding are not modelled: `Digest` stands for
 * `hashlib.sha1(data).hexdigest()` as an arbitrary function of the bytes.
 */
module Manifest {
  import opened Paths
  import opened Folders

  const ManifestName: Path := "CalibreBackup.sha1"
  const BlockSize: nat := 4096

  type Digest = seq<byte> -> string

  /** The bytes of a sequence of blocks, one after another. */
  function Flatten(blocks: seq<seq<byte>>): seq<byte> {
    if blocks == [] then [] else blocks[0] + Flatten(blocks[1..])
  }

  lemma {:induction false} FlattenAppend(blocks: seq<seq<byte>>, b: seq<byte>)
    ensures Flatten(blocks + [b]) == Flatten(blocks) + b
  {
    if blocks != [] {
      assert (blocks + [b])[1..] == blocks[1..] + [b];
      FlattenAppend(blocks[1..], b);
    }
  }

  /** A file opened with "rb": its bytes and the read position. */
  class Reader {
    const data: seq<byte>
    var pos: nat

    constructor (data: seq<byte>)
      ensures this.data == data && pos == 0
    {
      this.data := data;
      pos := 0;
    }

    /** `read(n)`: the next at most `n` bytes, and `b""` at the end of the file. */
    method Read(n: nat) returns (block: seq<byte>)
      requires pos <= |data|
      modifies this
      ensures old(pos) <= pos <= |data|
      ensures block == data[old(pos)..pos]
      ensures |block| == if old(pos) + n <= |data| then n else |data| - old(pos)
    {
      var end := if pos + n <= |data| then pos + n else |data|;
      block := data[pos..end];
      pos := end;
    }
  }

  /** A `hashlib.sha1()` object; its state is the bytes it has been fed. */
  class Sha1 {
    var fed: seq<byte>

    constructor ()
      ensures fed == []
    {
      fed := [];
    }

    method Update(block: seq<byte>)
      modifies this
      ensures fed == old(fed) + block
    {
      fed := fed + block;
    }
  }

  /**
   * The hashing of one file: read 4096 bytes at a time and feed each block to the
   * hash until a read comes back empty. `blocks` are the blocks fed to the hash: they put the file back together, none is
   * empty, none exceeds 4096 bytes, and only the last can be short.
   */
  method HashFile(data: seq<byte>, digest: Digest) returns (hex: string, blocks: seq<seq<byte>>)
    ensures hex == digest(data)
    ensures Flatten(blocks) == data
    ensures forall k :: 0 <= k < |blocks| ==> 0 < |blocks[k]| <= BlockSize
    ensures forall k :: 0 <= k < |blocks| - 1 ==> |blocks[k]| == BlockSize
  {
    var fi := new Reader(data);
    var sha := new Sha1();
    blocks := [];
    var block := fi.Read(BlockSize);
    while block != []
      invariant fi.data == data && fi.pos <= |data|
      invariant |block| <= BlockSize && |block| <= fi.pos
      invariant block == data[fi.pos - |block|..fi.pos]
      invariant |block| < BlockSize ==> fi.pos == |data|
      invariant sha.fed == Flatten(blocks) == data[..fi.pos - |block|]
      invariant forall k :: 0 <= k < |blocks| ==> 0 < |blocks[k]| <= BlockSize
      invariant forall k :: 0 <= k < |blocks| - 1 ==> |blocks[k]| == BlockSize
      invariant block != [] && blocks != [] ==> |blocks[|blocks| - 1]| == BlockSize
      decreases |data| - fi.pos + |block|
    {
      ghost var start := fi.pos - |block|;
      assert data[..start] + block == data[..fi.pos] by {
        assert data[..fi.pos] == data[..start] + data[start..fi.pos];
      }
      sha.Update(block);
      FlattenAppend(blocks, block);
      blocks := blocks + [block];
      block := fi.Read(BlockSize);
    }
    assert data[..fi.pos] == data;
    hex := digest(sha.fed);
  }

  /** The manifest line for one file: it splits back into the digest, one space, the path and a newline. */
  function FormatLine(hex: string, path: Path): (line: string)
    ensures |line| == |hex| + |path| + 2
    ensures line[..|hex|] == hex && line[|hex|] == ' '
    ensures line[|hex| + 1..|line| - 1] == path && line[|line| - 1] == '\n'
  {
    hex + " " + path + "\n"
  }

  /** The lines the manifest file holds when the builder ends: all of them, or those written before it raised. */
  datatype ManifestResult = Completed(lines: seq<string>) | Failed(lines: seq<string>)

  /** `ls` written first, then whatever `r` writes. */
  function Prefix(ls: seq<string>, r: ManifestResult): ManifestResult {
    match r
    case Completed(rest) => Completed(ls + rest)
    case Failed(rest) => Failed(ls + rest)
  }

  lemma PrefixEmpty(r: ManifestResult)
    ensures Prefix([], r) == r
  {
    assert [] + r.lines == r.lines;
  }

  lemma PrefixPrefix(a: seq<string>, b: seq<string>, r: ManifestResult)
    ensures Prefix(a, Prefix(b, r)) == Prefix(a + b, r)
  {
    assert a + (b + r.lines) == (a + b) + r.lines;
  }

  /**
   * The write loop over a listing: the exact name of the manifest is skipped; any
   * other path is opened with "rb", which raises for a directory (or a vanished path).
   */
  function LinesFor(files: seq<Path>, t: Tree, digest: Digest): (r: ManifestResult)
    ensures |r.lines| <= |files|
    ensures r.Completed? <==> forall i :: 0 <= i < |files| && files[i] != ManifestName ==> files[i] in t && t[files[i]].File?
  {
    if files == [] then Completed([])
    else
      var rest := LinesFor(files[1..], t, digest);
      assert forall i :: 0 < i < |files| ==> files[i] == files[1..][i - 1];
      if files[0] == ManifestName then rest
      else if files[0] !in t || t[files[0]].Dir? then Failed([])
      else Prefix([FormatLine(digest(t[files[0]].data), files[0])], rest)
  }

  /**
   * `backup_manifest` on a folder holding `t`. The listing is taken first; then the
   * manifest is opened for writing, which raises if its name is a directory.
   */
  ghost function ManifestOf(t: Tree, digest: Digest): (r: ManifestResult)
    ensures r.Completed? <==>
      !(ManifestName in t && t[ManifestName].Dir?) && forall p :: p in GlobRecursive(t) && p != ManifestName ==> t[p].File?
  {
    var files := SortedList(GlobRecursive(t));
    if ManifestName in t && t[ManifestName].Dir? then Failed([])
    else LinesFor(files, t, digest)
  }

  /** The paths the manifest speaks for, in the order of its lines: the sorted visible paths except the manifest. */
  ghost function ManifestPaths(t: Tree): seq<Path> {
    SortedList(GlobRecursive(t) - {ManifestName})
  }

  /** A text file opened with "w": the lines written so far. */
  class TextFile {
    var lines: seq<string>

    constructor ()
      ensures lines == []
    {
      lines := [];
    }

    method Write(line: string)
      modifies this
      ensures lines == old(lines) + [line]
    {
      lines := lines + [line];
    }
  }

  /** `backup_manifest`. The manifest text itself is returned rather than stored back into `t`. */
  method BuildManifest(t: Tree, digest: Digest) returns (result: ManifestResult)
    ensures result == ManifestOf(t, digest)
  {
    var files := SortPaths(GlobRecursive(t));
    SortedListingUnique(files, SortedList(GlobRecursive(t)), GlobRecursive(t));
    if ManifestName in t && t[ManifestName].Dir? {
      return Failed([]);
    }
    var f := new TextFile();
    var i := 0;
    PrefixEmpty(LinesFor(files, t, digest));
    while i < |files|
      invariant 0 <= i <= |files|
      invariant LinesFor(files, t, digest) == Prefix(f.lines, LinesFor(files[i..], t, digest))
    {
      var file := files[i];
      assert files[i..][1..] == files[i + 1..];
      if file != ManifestName {
        if file !in t || t[file].Dir? {
          return Failed(f.lines);
        }
        var hex, _ := HashFile(t[file].data, digest);
        PrefixPrefix(f.lines, [FormatLine(hex, file)], LinesFor(files[i + 1..], t, digest));
        f.Write(FormatLine(hex, file));
      }
      i := i + 1;
    }
    return Completed(f.lines);
  }
}

/** What the manifest builder promises, stated over the folder contents. */
module ManifestProperties {
  import opened Paths
  import opened Folders
  import opened Manifest

  /** The listing with every occurrence of `x` taken out. */
  function Without(r: seq<Path>, x: Path): (w: seq<Path>)
    ensures forall y :: y in w <==> y in r && y != x
  {
    if r == [] then [] else if r[0] == x then Without(r[1..], x) else [r[0]] + Without(r[1..], x)
  }

  lemma {:induction false} WithoutListing(r: seq<Path>, s: set<Path>, x: Path)
    requires IsSortedListing(r, s)
    ensures IsSortedListing(Without(r, x), s - {x})
    decreases |r|
  {
    if r != [] {
      TailListing(r, s);
      WithoutListing(r[1..], s - {r[0]}, x);
      if r[0] != x {
        var w := Without(r[1..], x);
        forall i | 0 <= i < |w|
          ensures Less(r[0], w[i])
        {
          assert w[i] in w;
          HeadIsLeast(r, s, w[i]);
        }
        ConsSorted(r[0], w);
      } else {
        assert s - {r[0]} - {x} == s - {x};
      }
    }
  }

  /** Skipping the manifest's name is the same as never listing it. */
  lemma {:induction false} LinesForWithout(files: seq<Path>, t: Tree, digest: Digest)
    ensures LinesFor(files, t, digest) == LinesFor(Without(files, ManifestName), t, digest)
  {
    if files != [] {
      LinesForWithout(files[1..], t, digest);
      if files[0] != ManifestName {
        assert ([files[0]] + Without(files[1..], ManifestName))[1..] == Without(files[1..], ManifestName);
      }
    }
  }

  /** The manifest is the write loop run over `ManifestPaths`, unless its own name is a directory. */
  lemma ManifestOverPaths(t: Tree, digest: Digest)
    ensures ManifestOf(t, digest) ==
      if ManifestName in t && t[ManifestName].Dir? then Failed([]) else LinesFor(ManifestPaths(t), t, digest)
  {
    var g := GlobRecursive(t);
    WithoutListing(SortedList(g), g, ManifestName);
    SortedListingUnique(Without(SortedList(g), ManifestName), SortedList(g - {ManifestName}), g - {ManifestName});
    LinesForWithout(SortedList(g), t, digest);
  }

  /**
   * Over paths that are present and are not the manifest's name, line k is the line for
   * path k; the loop completes when all are files, and otherwise stops right at the
   * first directory.
   */
  lemma {:induction false} LinesForShape(ps: seq<Path>, t: Tree, digest: Digest)
    requires forall i :: 0 <= i < |ps| ==> ps[i] in t && ps[i] != ManifestName
    ensures var r := LinesFor(ps, t, digest);
      && |r.lines| <= |ps|
      && (forall k :: 0 <= k < |r.lines| ==> t[ps[k]].File? && r.lines[k] == FormatLine(digest(t[ps[k]].data), ps[k]))
      && (r.Completed? <==> |r.lines| == |ps|)
      && (r.Failed? ==> t[ps[|r.lines|]].Dir?)
  {
    if ps != [] && t[ps[0]].File? {
      LinesForShape(ps[1..], t, digest);
    }
  }

  /**
   * The manifest has exactly one line per visible path other than the top-level
   * `CalibreBackup.sha1`, in sorted path order, each `<hex> <path>\n` with the digest of
   * that file's bytes. Opening a directory raises, so the manifest completes exactly when
   * there is none among those paths, and otherwise is cut short before the first one.
   */
  lemma ManifestLines(t: Tree, digest: Digest)
    ensures var r := ManifestOf(t, digest); var ps := ManifestPaths(t);
      && (ManifestName in t && t[ManifestName].Dir? ==> r == Failed([]))
      && |r.lines| <= |ps|
      && (forall k :: 0 <= k < |r.lines| ==> t[ps[k]].File? && r.lines[k] == FormatLine(digest(t[ps[k]].data), ps[k]))
      && (r.Completed? <==> !(ManifestName in t && t[ManifestName].Dir?) && forall p :: p in GlobRecursive(t) && p != ManifestName ==> t[p].File?)
      && (r.Completed? ==> |r.lines| == |ps|)
      && (r.Failed? && !(ManifestName in t && t[ManifestName].Dir?) ==> |r.lines| < |ps| && t[ps[|r.lines|]].Dir?)
  {
    var ps := ManifestPaths(t);
    ManifestOverPaths(t, digest);
    LinesForShape(ps, t, digest);
    var r := LinesFor(ps, t, digest);
    if r.Failed? {
      assert ps[|r.lines|] in GlobRecursive(t) - {ManifestName};
    } else {
      forall p | p in GlobRecursive(t) && p != ManifestName
        ensures t[p].File?
      {
        assert p in GlobRecursive(t) - {ManifestName};
        var k :| 0 <= k < |ps| && ps[k] == p;
      }
    }
  }

  /**
   * Writing the manifest does not change the next manifest: whatever bytes are stored
   * under `CalibreBackup.sha1`, building again over the otherwise unchanged folder gives
   * the same lines. This is why running the builder twice gives the same file.
   */
  lemma ManifestStable(t: Tree, digest: Digest, written: seq<byte>)
    requires ManifestName !in t || t[ManifestName].File?
    ensures ManifestOf(t[ManifestName := File(written)], digest) == ManifestOf(t, digest)
  {
    var t' := t[ManifestName := File(written)];
    assert GlobRecursive(t') - {ManifestName} == GlobRecursive(t) - {ManifestName};
    ManifestOverPaths(t, digest);
    ManifestOverPaths(t', digest);
    LinesForAgree(ManifestPaths(t), t, t', digest);
  }

  lemma {:induction false} LinesForAgree(ps: seq<Path>, t: Tree, t': Tree, digest: Digest)
    requires forall i :: 0 <= i < |ps| && ps[i] != ManifestName ==> (ps[i] in t <==> ps[i] in t') && (ps[i] in t ==> t[ps[i]] == t'[ps[i]])
    ensures LinesFor(ps, t, digest) == LinesFor(ps, t', digest)
  {
    if ps != [] {
      LinesForAgree(ps[1..], t, t', digest);
    }
  }

  /**
   * In a real folder, a nested visible path sits in a visible directory, so a completed
   * manifest means every visible entry is a file directly in the folder.
   */
  lemma CompletedMeansFlat(t: Tree, digest: Digest)
    requires ValidTree(t)
    requires ManifestOf(t, digest).Completed?
    ensures forall p :: p in GlobRecursive(t) ==> IsTopLevel(p) && t[p].File?
  {
  }

  /** The sorted listing of a folder is any listing shown to be sorted and complete. */
  lemma ListingOf(t: Tree, listing: seq<Path>)
    requires IsSortedListing(listing, GlobRecursive(t))
    ensures SortedList(GlobRecursive(t)) == listing
  {
    SortedListingUnique(listing, SortedList(GlobRecursive(t)), GlobRecursive(t));
  }

  /**
   * A flat folder with a stale manifest and a hidden file: the manifest lists the two
   * visible files in order and neither the old manifest nor the hidden file.
   */
  lemma FlatFolderExample(digest: Digest, hello: seq<byte>, world: seq<byte>, stale: seq<byte>)
    ensures ManifestOf(map["b.txt" := File(world), "a.txt" := File(hello), ".hidden" := File([]), ManifestName := File(stale)], digest)
      == Completed([digest(hello) + " a.txt\n", digest(world) + " b.txt\n"])
  {
    var t := map["b.txt" := File(world), "a.txt" := File(hello), ".hidden" := File([]), ManifestName := File(stale)];
    var listing := [ManifestName, "a.txt", "b.txt"];
    FlatListing(t, hello, world, stale);
    FlatLines(t, digest, hello, world, stale);
    assert t[ManifestName].File?;
  }

  lemma FlatListing(t: Tree, hello: seq<byte>, world: seq<byte>, stale: seq<byte>)
    requires t == map["b.txt" := File(world), "a.txt" := File(hello), ".hidden" := File([]), ManifestName := File(stale)]
    ensures SortedList(GlobRecursive(t)) == [ManifestName, "a.txt", "b.txt"]
  {
    assert GlobRecursive(t) == {ManifestName, "a.txt", "b.txt"} by {
      assert !Visible(".hidden") && Visible("a.txt") && Visible("b.txt") && Visible(ManifestName);
    }
    assert Less(ManifestName, "a.txt") && Less("a.txt", "b.txt");
    LessTransitive(ManifestName, "a.txt", "b.txt");
    ListingOf(t, [ManifestName, "a.txt", "b.txt"]);
  }

  lemma FlatLines(t: Tree, digest: Digest, hello: seq<byte>, world: seq<byte>, stale: seq<byte>)
    requires t == map["b.txt" := File(world), "a.txt" := File(hello), ".hidden" := File([]), ManifestName := File(stale)]
    ensures LinesFor([ManifestName, "a.txt", "b.txt"], t, digest) == Completed([digest(hello) + " a.txt\n", digest(world) + " b.txt\n"])
  {
    var listing := [ManifestName, "a.txt", "b.txt"];
    assert listing[1..] == ["a.txt", "b.txt"] && listing[1..][1..] == ["b.txt"] && ["b.txt"][1..] == [];
    assert "a.txt" != ManifestName && "b.txt" != ManifestName;
    assert t["a.txt"] == File(hello) && t["b.txt"] == File(world);
    assert FormatLine(digest(hello), "a.txt") == digest(hello) + " a.txt\n";
    assert FormatLine(digest(world), "b.txt") == digest(world) + " b.txt\n";
    assert LinesFor([], t, digest) == Completed([]);
    assert LinesFor(["b.txt"], t, digest) == Completed([digest(world) + " b.txt\n"]);
  }

  /**
   * A folder with a file and a sub-folder: the sorted listing reaches the directory
   * `sub` before `sub/b.txt`, opening it raises, and the manifest is left with one line.
   */
  lemma NestedFolderExample(digest: Digest, hello: seq<byte>, world: seq<byte>)
    ensures ManifestOf(map["a.txt" := File(hello), "sub" := Dir, "sub/b.txt" := File(world)], digest)
      == Failed([digest(hello) + " a.txt\n"])
  {
    var t := map["a.txt" := File(hello), "sub" := Dir, "sub/b.txt" := File(world)];
    NestedListing(t, hello, world);
    NestedLines(t, digest, hello, world);
    assert ManifestName !in t;
  }

  lemma NestedListing(t: Tree, hello: seq<byte>, world: seq<byte>)
    requires t == map["a.txt" := File(hello), "sub" := Dir, "sub/b.txt" := File(world)]
    ensures SortedList(GlobRecursive(t)) == ["a.txt", "sub", "sub/b.txt"]
  {
    assert GlobRecursive(t) == {"a.txt", "sub", "sub/b.txt"} by {
      assert Visible("sub/b.txt") && Visible("a.txt") && Visible("sub");
    }
    assert Less("a.txt", "sub") && Less("sub", "sub/b.txt");
    LessTransitive("a.txt", "sub", "sub/b.txt");
    ListingOf(t, ["a.txt", "sub", "sub/b.txt"]);
  }

  lemma NestedLines(t: Tree, digest: Digest, hello: seq<byte>, world: seq<byte>)
    requires t == map["a.txt" := File(hello), "sub" := Dir, "sub/b.txt" := File(world)]
    ensures LinesFor(["a.txt", "sub", "sub/b.txt"], t, digest) == Failed([digest(hello) + " a.txt\n"])
  {
    var listing := ["a.txt", "sub", "sub/b.txt"];
    assert listing[1..] == ["sub", "sub/b.txt"];
    assert "a.txt" != ManifestName && "sub" != ManifestName;
    assert t["a.txt"] == File(hello) && t["sub"] == Dir;
    assert LinesFor(listing[1..], t, digest) == Failed([]);
    assert FormatLine(digest(hello), "a.txt") == digest(hello) + " a.txt\n";
  }
}
