/** The firmware's file calls over program memory, and the host tool that appends a file. */
module VfsInline {
  import opened Bytes
  import opened InlineFs
  import Arith
  import Crc8

  const SEEK_SET := 0
  const SEEK_CUR := 1
  const SEEK_END := 2

  /** `vfs_size_t` is 32 bits wide. */
  const SIZE_RANGE: nat := 0x1_0000_0000

  /** The copy out of program memory. */
  method CopyFromFlash(flash: Image, from: nat, buf: array<byte>, n: nat)
    requires from + n <= |flash| && n <= buf.Length
    modifies buf
    ensures buf[..n] == flash[from..from + n] && buf[n..] == old(buf[n..])
  {
    for i := 0 to n
      invariant forall k :: 0 <= k < i ==> buf[k] == flash[from + k]
      invariant forall k :: n <= k < buf.Length ==> buf[k] == old(buf[k])
    {
      buf[i] := flash[from + i];
    }
  }

  lemma SliceOfSlice(s: Image, a: nat, b: nat, c: nat, d: nat)
    requires a <= b <= |s| && c <= d <= b - a
    ensures s[a..b][c..d] == s[a + c..a + d]
  {
    forall i | 0 <= i < d - c ensures s[a..b][c..d][i] == s[a + c..a + d][i] { }
  }

  lemma ChunkOfFlash(flash: Image, offset: nat, len: nat, pos: nat, length: nat)
    requires pos <= len && offset + len <= |flash|
    ensures var n := if length < len - pos then length else len - pos;
            Chunk(flash[offset..offset + len], pos, length) == flash[offset + pos..offset + pos + n]
  {
    SliceOfSlice(flash, offset, offset + len, pos, if length < len - pos then pos + length else len);
  }

  /** Where a seek aims; offsets just below 2^32 act as negative ones. */
  function Target(pos: nat, len: nat, offs: nat, whence: int): nat {
    if whence == SEEK_CUR then (pos + offs) % SIZE_RANGE
    else if whence == SEEK_END then (len + offs) % SIZE_RANGE
    else offs
  }

  class FileHandle {
    var offset: nat
    var pos: nat
    var len: nat

    predicate Valid()
      reads this
    {
      pos <= len < 65536
    }

    /** The contents the handle stands for. */
    function Contents(flash: Image): seq<byte>
      requires offset + len <= |flash|
      reads this
    {
      flash[offset..offset + len]
    }

    constructor (offset: nat, len: nat)
      requires len < 65536
      ensures Valid() && this.offset == offset && this.len == len && pos == 0
    {
      this.offset, this.len, pos := offset, len, 0;
    }

    /** `vfs_inline_read` */
    method Read(flash: Image, buf: array<byte>, length: nat) returns (n: nat)
      requires Valid() && offset + len <= |flash| && (length <= buf.Length || len - pos <= buf.Length)
      modifies this`pos, buf
      ensures Valid() && pos == old(pos) + n && n <= buf.Length
      ensures buf[..n] == Chunk(Contents(flash), old(pos), length)
      ensures buf[n..] == old(buf[n..])
    {
      n := len - pos;
      if length < n {
        n := length;
      }
      CopyFromFlash(flash, offset + pos, buf, n);
      ChunkOfFlash(flash, offset, len, pos, length);
      pos := pos + n;
    }

    /** Reads of the given sizes, one after the other. */
    method ReadEach(flash: Image, sizes: seq<nat>) returns (data: seq<byte>)
      requires Valid() && offset + len <= |flash|
      modifies this`pos
      ensures Valid() && pos == old(pos) + |data|
      ensures data == ReadAll(Contents(flash), old(pos), sizes)
    {
      hide Chunk;
      ghost var file, all := Contents(flash), ReadAll(Contents(flash), pos, sizes);
      data := [];
      for i := 0 to |sizes|
        invariant Valid() && pos == old(pos) + |data|
        invariant data + ReadAll(file, pos, sizes[i..]) == all
      {
        var buf := new byte[sizes[i]](_ => 0);
        var n := Read(flash, buf, sizes[i]);
        ghost var chunk := buf[..n];
        assert data + (chunk + ReadAll(file, pos, sizes[i + 1..])) == data + chunk + ReadAll(file, pos, sizes[i + 1..]);
        assert sizes[i..][1..] == sizes[i + 1..];
        data := data + buf[..n];
      }
    }

    /** `vfs_inline_fseek`: the sum wraps at 32 bits, and a position past the end is refused. */
    method Fseek(offs: nat, whence: int) returns (ret: int)
      requires Valid() && offs < SIZE_RANGE
      modifies this`pos
      ensures Valid()
      ensures ret == 0 <==> whence in {0, 1, 2} && Target(old(pos), len, offs, whence) <= len
      ensures pos == if ret == 0 then Target(old(pos), len, offs, whence) else old(pos)
      ensures ret == 0 || ret == 255
    {
      var newPos: nat;
      if whence == SEEK_SET {
        newPos := offs;
      } else if whence == SEEK_CUR {
        newPos := (pos + offs) % SIZE_RANGE;
      } else if whence == SEEK_END {
        newPos := (len + offs) % SIZE_RANGE;
      } else {
        return 255;
      }
      if newPos > len {
        return 255;
      }
      pos := newPos;
      return 0;
    }
  }

  /** Seeking forward by `offs` bytes: whence 0 counts from the start, 1 from the position, 2 from the end. */
  lemma SeekForward(pos: nat, len: nat, offs: nat, whence: int)
    requires pos <= len < 65536 && offs < 0x1_0000_0000 && whence in {0, 1, 2}
    ensures var base := if whence == 0 then 0 else if whence == 1 then pos else len;
            && (base + offs <= len ==> Target(pos, len, offs, whence) == base + offs)
            && (base + offs > len && Target(pos, len, offs, whence) <= len ==> base + offs >= 0x1_0000_0000)
  {
  }

  /** Seeking back by `back` bytes: the wrapped offset lands `back` before the base, or is refused. */
  lemma SeekBack(pos: nat, len: nat, back: nat, whence: int)
    requires pos <= len < 65536 && 1 <= back <= 0x1_0000_0000 && whence in {1, 2}
    ensures var base, offs := if whence == 1 then pos else len, (0x1_0000_0000 - back) % 0x1_0000_0000;
            && (Target(pos, len, offs, whence) <= len <==> back <= base || back > 0x1_0000_0000 + base - len - 1)
            && (back <= base ==> Target(pos, len, offs, whence) == base - back)
  {
  }

  /** `crc_checksum` over raw bytes */
  method DeviceCrc(raw: array<byte>, length: nat) returns (crc: byte)
    requires length <= raw.Length
    ensures crc == Checksum(raw[..length])
  {
    hide Crc8.Checksum;
    var bits := new bv8[length](i requires 0 <= i < length reads raw => raw[i] as bv8);
    var c := Crc8.CrcChecksum(bits, length);
    assert bits[..length] == ToBits(raw[..length]);
    return (c as int) as byte;
  }

  /** `crc_calc` over raw bytes */
  method ToolCrc(raw: seq<byte>) returns (crc: byte)
    ensures crc == ToolChecksum(raw)
  {
    hide Crc8.SerialChecksum;
    var bits := new bv8[|raw|](i requires 0 <= i < |raw| => raw[i] as bv8);
    var c := Crc8.CrcCalc(bits, |raw|);
    assert bits[..|raw|] == ToBits(raw);
    return (c as int) as byte;
  }

  /** `strncmp (node.s.fn, filename, VFS_INLINE_FNLEN)` over raw bytes. */
  method NodeMatches(flash: Image, page: nat, offset: nat, filename: seq<byte>) returns (found: bool)
    requires offset + 1 + NODE_SIZE <= |flash|
    ensures found <==> NameAt(flash, offset, filename)
  {
    if flash[offset] != MAGIC {
      return false;
    }
    var raw := new byte[NODE_SIZE](_ => 0);
    for i := 0 to NODE_SIZE
      invariant raw[..i] == flash[offset + 1..offset + 1 + i]
    {
      raw[i] := flash[offset + i + 1];
    }
    assert raw[..] == flash[offset + 1..offset + 1 + NODE_SIZE];
    assert raw[..8] == raw[..][..8] && raw[..FNLEN] == raw[..][..FNLEN];
    var crc := DeviceCrc(raw, NODE_SIZE - 1);
    if raw[8] != crc {
      return false;
    }
    return SameChars(raw[..FNLEN], filename, 0, FNLEN);
  }

  lemma NodeLengthBound(node: seq<byte>)
    requires |node| == NODE_SIZE
    ensures NodeLength(node) < 65536
  {
  }

  lemma ScanZero(flash: Image, page: nat, name: seq<byte>)
    requires page > NODE_SIZE
    ensures Scan(flash, page, 0, name) == 0
  {
  }

  /** `vfs_inline_open` */
  method Open(flash: Image, page: nat, filename: seq<byte>) returns (fh: FileHandle?)
    requires page > NODE_SIZE && page <= |flash| && |flash| % page == 0
    ensures var p := Scan(flash, page, |flash| - page, filename);
            if p == 0 then fh == null
            else fh != null && fresh(fh) && fh.Valid() && fh.pos == 0 && fh.offset == p + 1 + NODE_SIZE
                 && p + page <= |flash| && fh.len == NodeLength(flash[p + 1..p + 1 + NODE_SIZE])
  {
    hide NameAt, Scan, NodeLength;
    AlignedBelow(|flash|, page);
    var offset: nat := |flash| - page;
    while offset != 0
      invariant offset % page == 0 && (offset == 0 || offset + page <= |flash|)
      invariant Scan(flash, page, offset, filename) == Scan(flash, page, |flash| - page, filename)
    {
      ScanTurn(flash, page, offset, filename);
      var found := NodeMatches(flash, page, offset, filename);
      if found {
        NodeLengthBound(flash[offset + 1..offset + 1 + NODE_SIZE]);
        fh := new FileHandle(offset + NODE_SIZE + 1, NodeLength(flash[offset + 1..offset + 1 + NODE_SIZE]));
        return;
      }
      offset := offset - page;
    }
    ScanZero(flash, page, filename);
    fh := null;
  }

  /** The file-system round trip: on a programmed device, opening a name gives a handle on exactly the
      contents of the most recently appended file of that name, unless a page above that file merely
      looks like a node of the name. */
  method OpenLatest(flash: Image, page: nat, ghost image: Image, ghost files: seq<File>, filename: seq<byte>,
                    ghost j: nat)
    returns (fh: FileHandle?)
    requires Programmed(flash, page, image, files) && CString(filename)
    requires j < |files| && files[j].name == Key(filename)
    requires forall k :: j < k < |files| ==> files[k].name != Key(filename)
    ensures fh != null ==> fresh(fh) && fh.Valid() && fh.pos == 0 && fh.offset >= 1 + NODE_SIZE
    ensures var q := PlaceOf(image, page, files, j);
            (if fh == null then 0 else fh.offset - 1 - NODE_SIZE) == q <==>
            NoStrayNodes(flash, page, image, files, filename, q)
    ensures NoStrayNodes(flash, page, image, files, filename, PlaceOf(image, page, files, j)) ==>
              && (fh != null <==> image != [] || j > 0)
              && (fh != null ==> fh.offset + fh.len <= |flash| && fh.Contents(flash) == files[j].data)
  {
    hide Scan, Build, NoStrayNodes, NodeBytes;
    OpenFindsLatest(flash, page, image, files, filename, j);
    BuildHolds(image, page, files, j, flash);
    NodeRoundTrip(files[j].name, |files[j].data|);
    fh := Open(flash, page, filename);
  }

  /** `name` has no slash, and is all of the path or what follows one of its slashes. */
  predicate LastPart(path: seq<byte>, name: seq<byte>) {
    && SLASH !in name && |name| <= |path| && path[|path| - |name|..] == name
    && (|name| == |path| || path[|path| - |name| - 1] == SLASH)
  }

  /** The last component of a path. */
  function BaseName(path: seq<byte>): (b: seq<byte>)
    ensures |b| <= |path| && SLASH !in b
    decreases |path|
  {
    if SLASH !in path then path else BaseName(path[1..])
  }

  lemma LastPartOfTail(path: seq<byte>, name: seq<byte>)
    requires SLASH in path && LastPart(path[1..], name)
    ensures LastPart(path, name)
  {
    var rest := path[1..];
    assert path[|path| - |name|..] == rest[|rest| - |name|..];
    if |name| < |rest| {
      assert path[|path| - |name| - 1] == rest[|rest| - |name| - 1];
    } else {
      assert rest == name;
    }
  }

  lemma {:induction false} BaseNameIsLast(path: seq<byte>)
    ensures LastPart(path, BaseName(path))
    decreases |path|
  {
    if SLASH in path {
      hide LastPart;
      BaseNameIsLast(path[1..]);
      LastPartOfTail(path, BaseName(path[1..]));
    } else {
      assert path[|path| - |path|..] == path;
    }
  }

  lemma NoLonger(path: seq<byte>, a: seq<byte>, b: seq<byte>)
    requires LastPart(path, a) && LastPart(path, b)
    ensures |a| >= |b|
  {
  }

  /** A path has exactly one last part. */
  lemma LastPartUnique(path: seq<byte>, name: seq<byte>)
    ensures LastPart(path, name) <==> BaseName(path) == name
  {
    hide BaseName;
    BaseNameIsLast(path);
    if LastPart(path, name) {
      NoLonger(path, name, BaseName(path));
      NoLonger(path, BaseName(path), name);
    }
  }

  /** Without a directory the base name is the path itself, else it is what follows the last slash. */
  lemma BaseNameOf(dir: seq<byte>, name: seq<byte>)
    requires 47 !in name
    ensures BaseName(name) == name && BaseName(dir + [47] + name) == name
  {
    hide BaseName;
    LastPartUnique(name, name);
    LastPartUnique(dir + [47] + name, name);
  }

  predicate PageSizeOk(page: int) {
    page != 0 && page % 2 == 0 && 64 <= page <= 256
  }

  function Limited(s: seq<byte>): seq<byte> {
    if |s| <= BUFLEN then s else s[..BUFLEN]
  }

  lemma ErasedStep(n: nat)
    ensures Erased(n + 1) == Erased(n) + [ERASED]
  {
  }

  lemma RoundUpFixed(n: nat, page: nat)
    requires page >= 1 && n % page == 0
    ensures RoundUp(n, page) == n
  {
  }

  lemma RoundUpStep(n: nat, page: nat)
    requires page >= 1 && n % page != 0
    ensures RoundUp(n + 1, page) == RoundUp(n, page)
  {
    Arith.ModStep(page, n);
  }

  /** The padding loop: `putchar (0xFF)` up to a page boundary. */
  method PadImage(image: seq<byte>, page: nat) returns (out: seq<byte>)
    requires page >= 1
    ensures out == image + Erased(RoundUp(|image|, page) - |image|)
  {
    hide RoundUp;
    RoundUpAligned(|image|, page);
    var imageLen := |image|;
    out := image;
    while imageLen % page != 0
      invariant |image| <= imageLen && RoundUp(imageLen, page) == RoundUp(|image|, page)
      invariant out == image + Erased(imageLen - |image|)
      decreases RoundUp(imageLen, page) - imageLen
    {
      RoundUpStep(imageLen, page);
      ErasedStep(imageLen - |image|);
      out := out + [ERASED];
      imageLen := imageLen + 1;
    }
    RoundUpFixed(imageLen, page);
  }

  /** The loop that strips directories from the path. */
  method StripPath(path: seq<byte>) returns (name: seq<byte>)
    requires CString(path)
    ensures name == BaseName(path) && CString(name)
  {
    name := path;
    while SLASH in name
      invariant CString(name) && BaseName(name) == BaseName(path)
      decreases |name|
    {
      name := name[1..];
    }
  }

  /** `main` of vfs-concat, from the file contents it has read to what it prints. */
  method ConcatMain(page: int, image: seq<byte>, path: seq<byte>, file: seq<byte>)
    returns (exitCode: int, out: seq<byte>)
    requires CString(path)
    ensures exitCode == 0 <==> page % 2 == 0 && 64 <= page <= 256 && |BaseName(path)| <= 6
    ensures exitCode == 0 ==>
              CString(BaseName(path)) && out == Append(Limited(image), page, File(BaseName(path), Limited(file)))
    ensures forall dir, name :: path == dir + [47] + name && 47 !in name ==> BaseName(path) == name
  {
    hide NodeBody, ToolChecksum, RoundUp, BaseName;
    forall dir, base | path == dir + [47] + base && 47 !in base ensures BaseName(path) == base {
      BaseNameOf(dir, base);
    }
    if page == 0 || page % 2 != 0 || page < 64 || page > 256 {
      return 1, [];
    }
    var bufImage, bufFile := Limited(image), Limited(file);
    out := PadImage(bufImage, page);
    var name := StripPath(path);
    if |name| > FNLEN {
      return 1, out;
    }
    out := out + [MAGIC];
    var node := NodeBody(name, |bufFile|);
    var crc := ToolCrc(node);
    out := out + (node + [crc]);
    out := out + bufFile;
    return 0, out;
  }

  /** The tool run once per file, each run reading at most BUFLEN bytes of the image so far. */
  function RunTool(image: Image, page: nat, files: seq<File>): Image
    requires page >= 1 && FilesOk(files)
    decreases |files|
  {
    if files == [] then image
    else Append(Limited(RunTool(image, page, files[..|files| - 1])), page, files[|files| - 1])
  }

  /** An image the tool can read back without loss: it fits the buffer, or all that is cut off is
      fill that the padding puts back. */
  predicate ReadsBack(b: Image, page: nat)
    requires page >= 1
  {
    |b| <= BUFLEN || (|b| <= RoundUp(BUFLEN, page) && forall i :: BUFLEN <= i < |b| ==> b[i] == ERASED)
  }

  /** The image before the last file was appended, the longest one the tool reads back. */
  function BeforeLast(image: Image, page: nat, files: seq<File>): Image
    requires page >= 1 && FilesOk(files) && files != []
  {
    Build(image, page, files[..|files| - 1])
  }

  function Pad(image: Image, page: nat): Image
    requires page >= 1
  {
    image + Erased(RoundUp(|image|, page) - |image|)
  }

  /** Appends of the same file agree exactly when the padded images do. */
  lemma AppendsAgree(a: Image, b: Image, page: nat, f: File)
    requires page >= 1 && FileOk(f)
    ensures Append(a, page, f) == Append(b, page, f) <==> Pad(a, page) == Pad(b, page)
  {
    hide NodeBytes, RoundUp;
    var rest := [MAGIC] + NodeBytes(f.name, |f.data|) + f.data;
    assert Append(a, page, f) == Pad(a, page) + rest && Append(b, page, f) == Pad(b, page) + rest;
    if Append(a, page, f) == Append(b, page, f) {
      assert Append(a, page, f)[..|Pad(a, page)|] == Pad(a, page);
      assert Append(b, page, f)[..|Pad(b, page)|] == Pad(b, page);
    }
  }

  lemma RoundUpMonotone(m: nat, n: nat, page: nat)
    requires page >= 1 && m <= n
    ensures RoundUp(m, page) <= RoundUp(n, page)
  {
    hide RoundUp;
    RoundUpAligned(m, page);
    RoundUpAligned(n, page);
    if RoundUp(n, page) < RoundUp(m, page) {
      AlignedGap(RoundUp(m, page), RoundUp(n, page), page);
    }
  }

  lemma RoundUpOfLonger(m: nat, n: nat, page: nat)
    requires page >= 1 && m <= n <= RoundUp(m, page)
    ensures RoundUp(n, page) == RoundUp(m, page)
  {
    RoundUpAligned(m, page);
    RoundUpMonotone(m, n, page);
    RoundUpMonotone(n, RoundUp(m, page), page);
  }

  /** Where a shorter image pads to the same bytes, the longer one ends in fill from there on. */
  lemma CutIsFill(a: Image, b: Image, page: nat)
    requires page >= 1 && |a| <= BUFLEN < |b| && Pad(a, page) == Pad(b, page)
    ensures ReadsBack(b, page)
  {
    RoundUpMonotone(|a|, BUFLEN, page);
    hide RoundUp;
    assert |Pad(a, page)| == RoundUp(|a|, page) && |Pad(b, page)| == RoundUp(|b|, page);
    forall i | BUFLEN <= i < |b| ensures b[i] == ERASED {
      assert b[i] == Pad(b, page)[i] == Pad(a, page)[i];
    }
  }

  /** What a cut-off image lacks is put back exactly when it was fill. */
  lemma CutReadsBack(b: Image, page: nat)
    requires page >= 1
    ensures Pad(Limited(b), page) == Pad(b, page) <==> ReadsBack(b, page)
  {
    hide RoundUp;
    if |b| > BUFLEN {
      if ReadsBack(b, page) {
        RoundUpOfLonger(BUFLEN, |b|, page);
      }
      if Pad(Limited(b), page) == Pad(b, page) {
        CutIsFill(b[..BUFLEN], b, page);
      }
    }
  }

  /** The tool's output is never longer than the image of the appends. */
  lemma {:induction false} RunToolNoLonger(image: Image, page: nat, files: seq<File>)
    requires page >= 1 && FilesOk(files)
    ensures |RunTool(image, page, files)| <= |Build(image, page, files)|
    decreases |files|
  {
    if files != [] {
      var init := files[..|files| - 1];
      RunToolNoLonger(image, page, init);
      RoundUpMonotone(|Limited(RunTool(image, page, init))|, |Build(image, page, init)|, page);
      hide Append, Limited;
    }
  }

  /** An image that reads back was built from images that fit the buffer. */
  lemma EarlierFits(image: Image, page: nat, files: seq<File>)
    requires page >= 1 && FilesOk(files) && files != [] && ReadsBack(Build(image, page, files), page)
    ensures |BeforeLast(image, page, files)| <= BUFLEN
  {
    var b := BeforeLast(image, page, files);
    if |b| > BUFLEN {
      RoundUpMonotone(BUFLEN, |b|, page);
    }
    hide RoundUp;
  }

  lemma EarlierReadsBack(image: Image, page: nat, files: seq<File>)
    requires page >= 1 && FilesOk(files) && files != [] && ReadsBack(Build(image, page, files), page)
    ensures ReadsBack(BeforeLast(image, page, files), page)
  {
    hide RoundUp, Build;
    EarlierFits(image, page, files);
  }

  lemma LimitedLength(r: Image, b: Image, page: nat)
    requires page >= 1 && !ReadsBack(b, page)
    ensures |Limited(r)| <= BUFLEN < |b|
  {
    hide RoundUp;
  }

  /** Repeated runs of the tool build the image of the appends exactly when the image before the last
      run could be read back. */
  lemma {:induction false} RunsBuildImage(image: Image, page: nat, files: seq<File>)
    requires page >= 1 && FilesOk(files)
    ensures RunTool(image, page, files) == Build(image, page, files) <==>
            files == [] || ReadsBack(BeforeLast(image, page, files), page)
    decreases |files|
  {
    if files != [] {
      hide Append, RoundUp, Limited, ReadsBack;
      var init, f := files[..|files| - 1], files[|files| - 1];
      var r, b := RunTool(image, page, init), Build(image, page, init);
      AppendsAgree(Limited(r), b, page, f);
      RunsBuildImage(image, page, init);
      if ReadsBack(b, page) {
        if init != [] { EarlierReadsBack(image, page, init); }
        CutReadsBack(b, page);
      } else if Pad(Limited(r), page) == Pad(b, page) {
        LimitedLength(r, b, page);
        CutIsFill(Limited(r), b, page);
      }
    }
  }

  /** A firmware image one byte over the buffer loses that byte in the first run. */
  lemma LongImageIsCut(image: Image, f: File)
    requires |image| == BUFLEN + 1 && image[BUFLEN] != ERASED && FileOk(f)
    ensures RunTool(image, 64, [f]) != Build(image, 64, [f])
    ensures RunTool(image, 64, [f]) == Append(image[..BUFLEN] + [ERASED], 64, f)
  {
    hide Append;
    assert [f][..0] == [];
    assert BeforeLast(image, 64, [f]) == image && RunTool(image, 64, []) == image;
    assert RoundUp(BUFLEN, 64) == BUFLEN + 1;
    RunsBuildImage(image, 64, [f]);
    AppendsAgree(image[..BUFLEN], image[..BUFLEN] + [ERASED], 64, f);
  }

  // ----- from the tool to the device and back

  /** What one run of the tool stores for a source file: `name` is its path. */
  function Stored(source: File): File {
    File(BaseName(source.name), Limited(source.data))
  }

  function StoredAll(sources: seq<File>): seq<File> {
    seq(|sources|, i requires 0 <= i < |sources| => Stored(sources[i]))
  }

  predicate Paths(sources: seq<File>) {
    forall i :: 0 <= i < |sources| ==> CString(sources[i].name)
  }

  predicate ShortNames(sources: seq<File>) {
    forall i :: 0 <= i < |sources| ==> |BaseName(sources[i].name)| <= FNLEN
  }

  lemma {:induction false} BaseNameCString(path: seq<byte>)
    requires CString(path)
    ensures CString(BaseName(path))
    decreases |path|
  {
    if SLASH in path { BaseNameCString(path[1..]); }
  }

  lemma StoredOk(sources: seq<File>)
    requires Paths(sources) && ShortNames(sources)
    ensures FilesOk(StoredAll(sources))
  {
    hide BaseName;
    forall i | 0 <= i < |sources| ensures FileOk(StoredAll(sources)[i]) {
      BaseNameCString(sources[i].name);
    }
  }

  /** The tool run once per source file, up to the first failure. */
  method ConcatAll(page: int, image: seq<byte>, sources: seq<File>) returns (ok: bool, out: seq<byte>)
    requires Paths(sources)
    ensures ok <==> sources == [] || (PageSizeOk(page) && ShortNames(sources))
    ensures ok && sources != [] ==> FilesOk(StoredAll(sources)) && out == RunTool(image, page, StoredAll(sources))
    ensures sources == [] ==> out == image
  {
    hide Append, BaseName, Limited;
    out := image;
    for i := 0 to |sources|
      invariant i > 0 ==> PageSizeOk(page) && ShortNames(sources[..i])
      invariant i == 0 ==> out == image
      invariant i > 0 ==> FilesOk(StoredAll(sources[..i])) && out == RunTool(image, page, StoredAll(sources[..i]))
    {
      var exitCode, next := ConcatMain(page, out, sources[i].name, sources[i].data);
      if exitCode != 0 {
        return false, out;
      }
      var done := sources[..i + 1];
      StoredOk(done);
      assert StoredAll(done)[..i] == StoredAll(sources[..i]);
      assert i == 0 ==> StoredAll(sources[..i]) == [];
      out := next;
    }
    assert sources[..|sources|] == sources;
    return true, out;
  }

  /** A device of `size` bytes programmed with an image, erased behind it. */
  function Device(out: Image, size: nat): Image
    requires |out| <= size
  {
    out + Erased(size - |out|)
  }

  /** The whole way: the tool builds the image, the device is programmed with it, the file is opened
      and read in pieces. What comes out is the start of the latest file of that name, as many bytes
      as were asked for or as there are; the file is missing exactly when it was the first one
      appended to an empty image. */
  method StoreAndRead(page: nat, image: Image, sources: seq<File>, size: nat, filename: seq<byte>, sizes: seq<nat>,
                      ghost j: nat)
    returns (found: bool, data: seq<byte>)
    requires PageSizeOk(page) && Paths(sources) && ShortNames(sources) && j < |sources| && FilesOk(StoredAll(sources))
    requires ReadsBack(BeforeLast(image, page, StoredAll(sources)), page)
    requires |Build(image, page, StoredAll(sources))| <= size && page <= size && size % page == 0 && CString(filename)
    requires NoStrayNodes(Device(Build(image, page, StoredAll(sources)), size), page, image, StoredAll(sources),
                          filename, PlaceOf(image, page, StoredAll(sources), j))
    requires BaseName(sources[j].name) == Key(filename)
    requires forall k :: j < k < |sources| ==> BaseName(sources[k].name) != Key(filename)
    ensures found <==> image != [] || j > 0
    ensures found ==> data == Chunk(Limited(sources[j].data), 0, Sum(sizes))
  {
    hide Build, RunTool, BaseName, ReadsBack, NoStrayNodes, Limited, Chunk;
    var ok, out := ConcatAll(page, image, sources);
    ghost var files := StoredAll(sources);
    RunsBuildImage(image, page, files);
    var flash := Device(out, size);
    assert flash[..|out|] == out;
    var fh := OpenLatest(flash, page, image, files, filename, j);
    found := fh != null;
    data := [];
    if fh != null {
      data := fh.ReadEach(flash, sizes);
      ReadsInOrder(fh.Contents(flash), 0, sizes);
    }
  }
}
