/** The inline flash file system: what the image builder writes and what the firmware looks for. */
module InlineFs {
  import opened Bytes
  import Crc8
  import Arith

  const MAGIC: byte := 0x23
  const FNLEN: nat := 6
  const NODE_SIZE: nat := 9
  const ERASED: byte := 0xFF
  const BUFLEN: nat := 65535
  const SLASH: byte := 47

  type Image = seq<byte>

  /** A file to append: base name and contents. */
  datatype File = File(name: seq<byte>, data: seq<byte>)

  function ToBits(s: seq<byte>): seq<bv8> {
    seq(|s|, i requires 0 <= i < |s| => s[i] as bv8)
  }

  /** The checksum the firmware expects: `_crc_ibutton_update` folded over the bytes. */
  function Checksum(s: seq<byte>): byte {
    (Crc8.Checksum(0, ToBits(s)) as int) as byte
  }

  /** The checksum the tool writes: its own bit-serial update folded over the bytes. */
  function ToolChecksum(s: seq<byte>): byte {
    (Crc8.SerialChecksum(0, ToBits(s)) as int) as byte
  }

  /** The two agree, so the firmware accepts what the tool wrote. */
  lemma ChecksumsAgree(s: seq<byte>)
    ensures ToolChecksum(s) == Checksum(s)
  {
    hide Crc8.SerialChecksum, Crc8.Checksum;
    Crc8.SerialChecksumIsChecksum(0, ToBits(s));
  }

  // ----- the node

  function PaddedName(name: seq<byte>): (fn: seq<byte>)
    requires |name| <= FNLEN
    ensures |fn| == FNLEN
  {
    name + seq(FNLEN - |name|, _ => 0)
  }

  function NodeBody(name: seq<byte>, len: nat): (n: seq<byte>)
    requires |name| <= FNLEN && len < 65536
    ensures |n| == NODE_SIZE - 1
  {
    PaddedName(name) + [(len % 256) as byte, (len / 256) as byte]
  }

  /** File name, length (low byte first) and checksum, packed. */
  function NodeBytes(name: seq<byte>, len: nat): (n: seq<byte>)
    requires |name| <= FNLEN && len < 65536
    ensures |n| == NODE_SIZE
  {
    NodeBody(name, len) + [ToolChecksum(NodeBody(name, len))]
  }

  function NodeLength(node: seq<byte>): nat
    requires |node| == NODE_SIZE
  {
    node[6] as nat + 256 * (node[7] as nat)
  }

  predicate NodeValid(node: seq<byte>)
    requires |node| == NODE_SIZE
  {
    node[8] == Checksum(node[..8])
  }

  /** Characters of a C string, 0 past its end. */
  function CharAt(s: seq<byte>, i: nat): byte {
    if i < |s| then s[i] else 0
  }

  /** `strncmp (a, b, n) == 0` from character `i` on. */
  predicate SameChars(a: seq<byte>, b: seq<byte>, i: nat, n: nat)
    requires i <= n
    decreases n - i
  {
    i == n || (CharAt(a, i) == CharAt(b, i) && (CharAt(a, i) == 0 || SameChars(a, b, i + 1, n)))
  }

  predicate CString(s: seq<byte>) {
    forall i :: 0 <= i < |s| ==> s[i] != 0
  }

  /** The part of a name that takes part in the comparison. */
  function Key(name: seq<byte>): seq<byte> {
    if |name| <= FNLEN then name else name[..FNLEN]
  }

  lemma {:induction false} SameCharsIff(a: seq<byte>, b: seq<byte>, i: nat, n: nat)
    requires CString(a) && CString(b) && i <= n && |a| <= n && |b| <= n && i <= |a| && i <= |b|
    ensures SameChars(a, b, i, n) <==> a[i..] == b[i..]
    decreases n - i
  {
    if i < |a| && i < |b| {
      SameCharsIff(a, b, i + 1, n);
      assert a[i..] == [a[i]] + a[i + 1..] && b[i..] == [b[i]] + b[i + 1..];
    }
  }

  lemma {:induction false} SameCharsPrefix(a: seq<byte>, b: seq<byte>, a': seq<byte>, b': seq<byte>, i: nat, n: nat)
    requires i <= n && forall k :: 0 <= k < n ==> CharAt(a, k) == CharAt(a', k) && CharAt(b, k) == CharAt(b', k)
    ensures SameChars(a, b, i, n) == SameChars(a', b', i, n)
    decreases n - i
  {
    if i < n { SameCharsPrefix(a, b, a', b', i + 1, n); }
  }

  /** A stored name is taken for `wanted` exactly when it equals the first six characters of it. */
  lemma StoredNameMatches(stored: seq<byte>, wanted: seq<byte>)
    requires CString(stored) && |stored| <= FNLEN && CString(wanted)
    ensures SameChars(PaddedName(stored), wanted, 0, FNLEN) <==> stored == Key(wanted)
  {
    SameCharsPrefix(PaddedName(stored), wanted, stored, Key(wanted), 0, FNLEN);
    SameCharsIff(stored, Key(wanted), 0, FNLEN);
    assert stored[0..] == stored && Key(wanted)[0..] == Key(wanted);
  }

  /** What the tool writes the firmware takes for a valid node with that length and name. */
  lemma NodeRoundTrip(name: seq<byte>, len: nat)
    requires |name| <= FNLEN && len < 65536
    ensures NodeValid(NodeBytes(name, len)) && NodeLength(NodeBytes(name, len)) == len
    ensures NodeBytes(name, len)[..FNLEN] == PaddedName(name)
  {
    hide Checksum, ToolChecksum;
    ChecksumsAgree(NodeBody(name, len));
    assert NodeBytes(name, len)[..8] == NodeBody(name, len);
  }

  /** The bytes of a node: the name filled up with zeros to six bytes, the length with its low byte first. */
  lemma NodeSpelled(name: seq<byte>, len: nat, i: nat)
    requires |name| <= 6 && len < 65536 && i < 8
    ensures |NodeBytes(name, len)| == 9
    ensures NodeBytes(name, len)[i] as nat ==
            if i < |name| then name[i] as nat else if i < 6 then 0 else if i == 6 then len % 256 else len / 256
  {
    hide ToolChecksum;
  }

  /** The next multiple of the page size. */
  function RoundUp(n: nat, page: nat): (r: nat)
    requires page >= 1
    ensures n <= r < n + page
  {
    if n % page == 0 then n else n - n % page + page
  }

  lemma RoundUpAligned(n: nat, page: nat)
    requires page >= 1
    ensures RoundUp(n, page) % page == 0
  {
    if n % page != 0 {
      assert n == page * (n / page) + n % page;
      assert (n / page + 1) * page == (n / page) * page + page;
      Arith.DivModUnique(RoundUp(n, page), page, n / page + 1, 0);
    }
  }

  predicate FileOk(f: File) {
    CString(f.name) && |f.name| <= FNLEN && |f.data| <= BUFLEN
  }

  /** One run of vfs-concat: pad to a page, then magic, node and contents. */
  function Append(image: Image, page: nat, f: File): (r: Image)
    requires page >= 1 && FileOk(f)
    ensures |r| == RoundUp(|image|, page) + 1 + NODE_SIZE + |f.data|
  {
    image + Erased(RoundUp(|image|, page) - |image|) + [MAGIC] + NodeBytes(f.name, |f.data|) + f.data
  }

  /** A file starts with '#', behind fill that ends at a page boundary. */
  lemma AppendSpelled(image: Image, page: nat, f: File)
    requires page >= 1 && FileOk(f)
    ensures var r, p := Append(image, page, f), RoundUp(|image|, page);
            && p % page == 0 && |image| <= p < |image| + page && r[..|image|] == image
            && (forall i :: |image| <= i < p ==> r[i] == 255) && r[p] == 35
  {
    hide NodeBytes, RoundUp;
    RoundUpAligned(|image|, page);
  }

  // ----- building the image

  function Erased(n: nat): Image {
    seq(n, _ => ERASED)
  }

  predicate FilesOk(files: seq<File>) {
    forall i :: 0 <= i < |files| ==> FileOk(files[i])
  }

  /** The image after all files have been appended in turn. */
  function Build(image: Image, page: nat, files: seq<File>): Image
    requires page >= 1 && FilesOk(files)
    decreases |files|
  {
    if files == [] then image
    else Append(Build(image, page, files[..|files| - 1]), page, files[|files| - 1])
  }

  /** Where file `k` starts. */
  function PlaceOf(image: Image, page: nat, files: seq<File>, k: nat): nat
    requires page >= 1 && FilesOk(files) && k < |files|
  {
    RoundUp(|Build(image, page, files[..k])|, page)
  }

  lemma AppendKeeps(image: Image, page: nat, f: File)
    requires page >= 1 && FileOk(f)
    ensures Append(image, page, f)[..|image|] == image
  {
    hide NodeBytes;
  }

  lemma {:induction false} BuildExtends(image: Image, page: nat, files: seq<File>, k: nat)
    requires page >= 1 && FilesOk(files) && k <= |files|
    ensures var a := Build(image, page, files[..k]);
            |a| <= |Build(image, page, files)| && Build(image, page, files)[..|a|] == a
    decreases |files|
  {
    hide Append;
    if k == |files| {
      assert files[..k] == files;
    } else {
      var init := files[..|files| - 1];
      BuildExtends(image, page, init, k);
      assert init[..k] == files[..k];
      AppendKeeps(Build(image, page, init), page, files[|files| - 1]);
      assert Build(image, page, files)[..|Build(image, page, files[..k])|]
          == Build(image, page, files)[..|Build(image, page, init)|][..|Build(image, page, files[..k])|];
    }
  }

  /** `image` holds file `f` at `p`. */
  ghost predicate Holds(image: Image, p: nat, f: File)
    requires FileOk(f)
  {
    && p + 1 + NODE_SIZE + |f.data| <= |image|
    && image[p] == MAGIC
    && image[p + 1..p + 1 + NODE_SIZE] == NodeBytes(f.name, |f.data|)
    && image[p + 1 + NODE_SIZE..p + 1 + NODE_SIZE + |f.data|] == f.data
  }

  lemma AppendPlaces(image: Image, page: nat, f: File)
    requires page >= 1 && FileOk(f)
    ensures Holds(Append(image, page, f), RoundUp(|image|, page), f)
  {
    hide NodeBytes;
    var r, p := Append(image, page, f), RoundUp(|image|, page);
    var front := image + Erased(p - |image|);
    assert r == front + ([MAGIC] + NodeBytes(f.name, |f.data|) + f.data);
  }

  lemma HoldsLonger(a: Image, b: Image, p: nat, f: File)
    requires FileOk(f) && Holds(a, p, f) && |a| <= |b| && b[..|a|] == a
    ensures Holds(b, p, f)
  {
    hide NodeBytes;
    var m, e := p + 1 + NODE_SIZE, p + 1 + NODE_SIZE + |f.data|;
    forall i | 0 <= i < |a| ensures b[i] == a[i] { assert b[i] == b[..|a|][i]; }
    assert b[p + 1..m] == a[p + 1..m];
    assert b[m..e] == a[m..e];
  }

  /** Every file is where it was put, in the finished image and on the device. */
  lemma BuildHolds(image: Image, page: nat, files: seq<File>, k: nat, flash: Image)
    requires page >= 1 && FilesOk(files) && k < |files|
    requires |Build(image, page, files)| <= |flash| && flash[..|Build(image, page, files)|] == Build(image, page, files)
    ensures Holds(flash, PlaceOf(image, page, files, k), files[k])
  {
    hide Append, NodeBytes, Holds;
    var upTo := files[..k + 1];
    assert upTo[..k] == files[..k] && upTo[k] == files[k] && upTo[..|upTo| - 1] == files[..k];
    var b := Build(image, page, upTo);
    assert b == Append(Build(image, page, files[..k]), page, files[k]);
    AppendPlaces(Build(image, page, files[..k]), page, files[k]);
    BuildExtends(image, page, files, k + 1);
    HoldsLonger(b, Build(image, page, files), PlaceOf(image, page, files, k), files[k]);
    HoldsLonger(Build(image, page, files), flash, PlaceOf(image, page, files, k), files[k]);
  }

  lemma PlacesIncrease(image: Image, page: nat, files: seq<File>, j: nat, k: nat)
    requires page >= 1 && FilesOk(files) && j < k < |files|
    ensures PlaceOf(image, page, files, j) < PlaceOf(image, page, files, k)
  {
    hide Append;
    var before := files[..j + 1];
    assert before[..|before| - 1] == files[..j] && before[|before| - 1] == files[j];
    assert |Build(image, page, before)| > PlaceOf(image, page, files, j) by {
      assert Build(image, page, before) == Append(Build(image, page, files[..j]), page, files[j]);
    }
    BuildExtends(image, page, files[..k], j + 1);
    assert files[..k][..j + 1] == before;
  }

  // ----- looking a name up

  /** The page at `p` looks like a file node. */
  ghost predicate NodeAt(flash: Image, p: nat)
    requires p + 1 + NODE_SIZE <= |flash|
  {
    flash[p] == MAGIC && NodeValid(flash[p + 1..p + 1 + NODE_SIZE])
  }

  /** A node is byte 35, eight bytes and their checksum. */
  lemma NodeAtMeans(flash: Image, p: nat)
    requires p + 10 <= |flash|
    ensures NodeAt(flash, p) <==> flash[p] == 35 && flash[p + 9] == Checksum(flash[p + 1..p + 9])
  {
    hide Checksum;
    assert flash[p + 1..p + 10][..8] == flash[p + 1..p + 9];
  }

  ghost predicate NameAt(flash: Image, p: nat, name: seq<byte>)
    requires p + 1 + NODE_SIZE <= |flash|
  {
    NodeAt(flash, p) && SameChars(flash[p + 1..p + 1 + NODE_SIZE][..FNLEN], name, 0, FNLEN)
  }

  /** The scan of `vfs_inline_open`, from page start `p` downwards; page 0 is not looked at. */
  ghost function Scan(flash: Image, page: nat, p: nat, name: seq<byte>): (q: nat)
    requires page > NODE_SIZE && (p == 0 || p + page <= |flash|)
    decreases p
  {
    if p < page then 0
    else if NameAt(flash, p, name) then p
    else Scan(flash, page, p - page, name)
  }

  lemma Aligned(p: nat, page: nat)
    requires page >= 1 && p % page == 0 && p > 0
    ensures p >= page
  {
    assert p == page * (p / page);
    Arith.MulMonotone(1, p / page, page);
  }

  lemma AlignedBelow(p: nat, page: nat)
    requires page >= 1 && p % page == 0 && p >= page
    ensures (p - page) % page == 0
  {
    assert p == page * (p / page);
    assert (p / page - 1) * page == (p / page) * page - page;
    Arith.DivModUnique(p - page, page, p / page - 1, 0);
  }

  /** One turn of the scan. */
  lemma ScanTurn(flash: Image, page: nat, p: nat, name: seq<byte>)
    requires page > NODE_SIZE && p > 0 && p % page == 0 && p + page <= |flash|
    ensures p >= page && (p - page) % page == 0
    ensures Scan(flash, page, p, name) == if NameAt(flash, p, name) then p else Scan(flash, page, p - page, name)
  {
    hide NameAt;
    Aligned(p, page);
    AlignedBelow(p, page);
  }

  lemma AlignedGap(p: nat, q: nat, page: nat)
    requires page >= 1 && p % page == 0 && q % page == 0 && q < p
    ensures q + page <= p
  {
    assert p == page * (p / page) && q == page * (q / page);
    if q / page >= p / page { Arith.MulMonotone(p / page, q / page, page); }
    Arith.MulMonotone(q / page + 1, p / page, page);
    assert (q / page + 1) * page == (q / page) * page + page;
  }

  lemma {:induction false} ScanFinds(flash: Image, page: nat, p: nat, name: seq<byte>, q: nat)
    requires page > NODE_SIZE && p % page == 0 && (p == 0 || p + page <= |flash|)
    requires 0 < q <= p && q % page == 0 && NameAt(flash, q, name)
    requires forall r :: q < r <= p && r % page == 0 ==> !NameAt(flash, r, name)
    ensures Scan(flash, page, p, name) == q
    decreases p
  {
    hide NameAt;
    Aligned(q, page);
    if q < p {
      AlignedBelow(p, page);
      AlignedGap(p, q, page);
      ScanFinds(flash, page, p - page, name, q);
    }
  }

  lemma {:induction false} ScanMisses(flash: Image, page: nat, p: nat, name: seq<byte>)
    requires page > NODE_SIZE && p % page == 0 && (p == 0 || p + page <= |flash|)
    requires forall r :: 0 < r <= p && r % page == 0 ==> !NameAt(flash, r, name)
    ensures Scan(flash, page, p, name) == 0
    decreases p
  {
    hide NameAt;
    if p >= page {
      AlignedBelow(p, page);
      ScanMisses(flash, page, p - page, name);
    }
  }

  /** The device: the built image at address 0 of a flash that is a whole number of pages. */
  ghost predicate Programmed(flash: Image, page: nat, image: Image, files: seq<File>) {
    && page > NODE_SIZE && FilesOk(files) && page <= |flash| && |flash| % page == 0
    && |Build(image, page, files)| <= |flash| && flash[..|Build(image, page, files)|] == Build(image, page, files)
  }

  /** No page above `q` looks like a node of that name except where a file was put. */
  ghost predicate NoStrayNodes(flash: Image, page: nat, image: Image, files: seq<File>, name: seq<byte>, q: nat)
    requires page > NODE_SIZE && FilesOk(files)
  {
    forall p: nat :: q < p && p % page == 0 && p + page <= |flash| && NameAt(flash, p, name) ==>
      exists k :: 0 <= k < |files| && p == PlaceOf(image, page, files, k)
  }

  /** A file is recognised by name exactly when the names agree in six characters. */
  lemma NameAtPlace(flash: Image, page: nat, image: Image, files: seq<File>, k: nat, name: seq<byte>)
    requires Programmed(flash, page, image, files) && k < |files| && CString(name)
    ensures var p := PlaceOf(image, page, files, k);
            p + 1 + NODE_SIZE <= |flash| && p % page == 0 && p + page <= |flash|
            && (NameAt(flash, p, name) <==> files[k].name == Key(name))
  {
    hide NodeBytes, NodeValid, SameChars;
    var p := PlaceOf(image, page, files, k);
    BuildHolds(image, page, files, k, flash);
    RoundUpAligned(|Build(image, page, files[..k])|, page);
    AlignedGap(|flash|, p, page);
    NodeRoundTrip(files[k].name, |files[k].data|);
    StoredNameMatches(files[k].name, name);
  }

  lemma {:induction false} ScanReaches(flash: Image, page: nat, p: nat, name: seq<byte>, r: nat)
    requires page > NODE_SIZE && p % page == 0 && (p == 0 || p + page <= |flash|)
    requires 0 < r <= p && r % page == 0 && NameAt(flash, r, name)
    ensures Scan(flash, page, p, name) >= r
    decreases p
  {
    hide NameAt;
    Aligned(r, page);
    if r < p {
      AlignedBelow(p, page);
      AlignedGap(p, r, page);
      if !NameAt(flash, p, name) { ScanReaches(flash, page, p - page, name, r); }
    }
  }

  /** No page after `q` looks like a node of that name. */
  ghost predicate LastOfName(flash: Image, page: nat, q: nat, name: seq<byte>)
    requires page > NODE_SIZE
  {
    forall r: nat :: q < r && r % page == 0 && r + page <= |flash| ==> !NameAt(flash, r, name)
  }

  /** The scan ends at a page exactly when that is page 0 or bears the name, and no later one does. */
  lemma ScanStops(flash: Image, page: nat, name: seq<byte>, q: nat)
    requires page > NODE_SIZE && |flash| % page == 0 && page <= |flash| && q % page == 0
    requires q == 0 || (q + page <= |flash| && NameAt(flash, q, name))
    ensures Scan(flash, page, |flash| - page, name) == q <==> LastOfName(flash, page, q, name)
  {
    hide NameAt, Scan;
    AlignedBelow(|flash|, page);
    if !LastOfName(flash, page, q, name) {
      var r: nat :| q < r && r % page == 0 && r + page <= |flash| && NameAt(flash, r, name);
      ScanReaches(flash, page, |flash| - page, name, r);
    } else if q > 0 {
      AlignedGap(|flash|, q, page);
      ScanFinds(flash, page, |flash| - page, name, q);
    } else {
      ScanMisses(flash, page, |flash| - page, name);
    }
  }

  /** Lookup of a stored file's name stops at that file exactly when no later page looks like a node
      of that name, be it a later file or mere data. */
  lemma LookupStopsAt(flash: Image, page: nat, image: Image, files: seq<File>, name: seq<byte>, j: nat)
    requires Programmed(flash, page, image, files) && CString(name) && j < |files| && files[j].name == Key(name)
    ensures Scan(flash, page, |flash| - page, name) == PlaceOf(image, page, files, j) <==>
            LastOfName(flash, page, PlaceOf(image, page, files, j), name)
  {
    hide NodeAt, NameAt, PlaceOf, Build, NodeBytes, Scan, LastOfName;
    var q := PlaceOf(image, page, files, j);
    NameAtPlace(flash, page, image, files, j, name);
    ScanStops(flash, page, name, q);
  }

  lemma PlacePositive(image: Image, page: nat, files: seq<File>, k: nat)
    requires page >= 1 && FilesOk(files) && k < |files|
    ensures PlaceOf(image, page, files, k) > 0 <==> image != [] || k > 0
  {
    if k > 0 {
      PlacesIncrease(image, page, files, 0, k);
    } else {
      assert files[..0] == [];
    }
  }

  /** Lookup finds the most recently appended file of that name exactly when no page above it that is
      not a file looks like a node of that name. The scan reports page 0 as "not found", so the one
      file that is lost is the first one appended to an empty image. */
  lemma OpenFindsLatest(flash: Image, page: nat, image: Image, files: seq<File>, name: seq<byte>, j: nat)
    requires Programmed(flash, page, image, files) && CString(name)
    requires j < |files| && files[j].name == Key(name)
    requires forall k :: j < k < |files| ==> files[k].name != Key(name)
    ensures Scan(flash, page, |flash| - page, name) == PlaceOf(image, page, files, j) <==>
            NoStrayNodes(flash, page, image, files, name, PlaceOf(image, page, files, j))
    ensures PlaceOf(image, page, files, j) > 0 <==> image != [] || j > 0
  {
    hide NodeAt, NameAt, PlaceOf, Build, NodeBytes, Scan;
    var q := PlaceOf(image, page, files, j);
    LookupStopsAt(flash, page, image, files, name, j);
    PlacePositive(image, page, files, j);
    forall k | 0 <= k < |files| && PlaceOf(image, page, files, k) > q
      ensures PlaceOf(image, page, files, k) + 1 + NODE_SIZE <= |flash|
      ensures !NameAt(flash, PlaceOf(image, page, files, k), name)
    {
      if k < j { PlacesIncrease(image, page, files, k, j); }
      NameAtPlace(flash, page, image, files, k, name);
    }
  }

  /** A name that no file carries is not found exactly when no page above page 0 merely looks like a
      node of that name. */
  lemma OpenMisses(flash: Image, page: nat, image: Image, files: seq<File>, name: seq<byte>)
    requires Programmed(flash, page, image, files) && CString(name)
    requires forall k :: 0 <= k < |files| ==> files[k].name != Key(name)
    ensures Scan(flash, page, |flash| - page, name) == 0 <==> NoStrayNodes(flash, page, image, files, name, 0)
  {
    hide NodeAt, NameAt, PlaceOf, Build, NodeBytes, Scan;
    ScanStops(flash, page, name, 0);
    forall k | 0 <= k < |files|
      ensures PlaceOf(image, page, files, k) + 1 + NODE_SIZE <= |flash|
      ensures !NameAt(flash, PlaceOf(image, page, files, k), name)
    {
      NameAtPlace(flash, page, image, files, k, name);
    }
  }

  /** A file whose data holds, at a page start, what the tool writes for an empty file. */
  ghost predicate Decoy(g: File, fill: seq<byte>, name: seq<byte>)
    requires |name| <= FNLEN
  {
    FileOk(g) && |fill| == 54 && g.data == fill + [MAGIC] + NodeBytes(name, 0)
  }

  lemma DecoyPlaces(f: File, g: File)
    requires FileOk(f) && f.data == [] && FileOk(g)
    ensures PlaceOf([1], 64, [f, g], 0) == 64 && PlaceOf([1], 64, [f, g], 1) == 128
  {
    hide NodeBytes;
    assert [f, g][..0] == [] && [f, g][..1] == [f] && [f][..0] == [];
    assert Build([1], 64, []) == [1];
    assert RoundUp(1, 64) == 64 && RoundUp(74, 64) == 128;
    assert |Build([1], 64, [f])| == 74;
  }

  /** A copy of a node bears its name. */
  lemma NodeNamed(flash: Image, p: nat, name: seq<byte>)
    requires p + 1 + NODE_SIZE <= |flash| && CString(name) && |name| <= FNLEN && flash[p] == MAGIC
    requires flash[p + 1..p + 1 + NODE_SIZE] == NodeBytes(name, 0)
    ensures NameAt(flash, p, name)
  {
    hide NodeBytes, NodeValid, SameChars;
    NodeRoundTrip(name, 0);
    StoredNameMatches(name, name);
  }

  /** Data can hide a file: with 64-byte pages, file `f` at page 1 and then a file of another name whose
      data starts page 3 with a copy of the node of `f`, lookup of `f` ends in that data. */
  lemma DataHidesFile(flash: Image, f: File, g: File, fill: seq<byte>)
    requires FileOk(f) && f.data == [] && Decoy(g, fill, f.name) && g.name != f.name
    requires |flash| == 256 && Programmed(flash, 64, [1], [f, g])
    ensures PlaceOf([1], 64, [f, g], 0) == 64
    ensures Scan(flash, 64, 192, f.name) == 192
  {
    hide NodeBytes, NodeAt;
    var files := [f, g];
    DecoyPlaces(f, g);
    BuildHolds([1], 64, files, 1, flash);
    assert flash[138..202] == g.data;
    assert flash[192] == flash[138..202][54] == MAGIC;
    assert flash[193..202] == flash[138..202][55..] == NodeBytes(f.name, 0);
    NodeRoundTrip(f.name, 0);
    StoredNameMatches(f.name, f.name);
    assert Key(f.name) == f.name;
    NodeNamed(flash, 192, f.name);
    ScanTurn(flash, 64, 192, f.name);
  }

  // ----- reading

  /** What the next read of at most `n` bytes returns. */
  function Chunk(data: seq<byte>, pos: nat, n: nat): seq<byte>
    requires pos <= |data|
  {
    if n < |data| - pos then data[pos..pos + n] else data[pos..]
  }

  /** All bytes returned by successive reads of the given sizes. */
  function ReadAll(data: seq<byte>, pos: nat, sizes: seq<nat>): seq<byte>
    requires pos <= |data|
    decreases |sizes|
  {
    if sizes == [] then []
    else Chunk(data, pos, sizes[0]) + ReadAll(data, pos + |Chunk(data, pos, sizes[0])|, sizes[1..])
  }

  function Sum(sizes: seq<nat>): nat {
    if sizes == [] then 0 else sizes[0] + Sum(sizes[1..])
  }

  lemma ChunkJoins(data: seq<byte>, pos: nat, m: nat, n: nat)
    requires pos <= |data|
    ensures pos + |Chunk(data, pos, m)| <= |data|
    ensures Chunk(data, pos, m) + Chunk(data, pos + |Chunk(data, pos, m)|, n) == Chunk(data, pos, m + n)
  {
  }

  lemma ChunkNone(data: seq<byte>, pos: nat)
    requires pos <= |data|
    ensures Chunk(data, pos, 0) == []
  {
  }

  /** Any sequence of reads returns the file's bytes in order, as many as were asked for or are left. */
  lemma {:induction false} ReadsInOrder(data: seq<byte>, pos: nat, sizes: seq<nat>)
    requires pos <= |data|
    ensures ReadAll(data, pos, sizes) == Chunk(data, pos, Sum(sizes))
    decreases |sizes|
  {
    hide Chunk;
    if sizes == [] {
      ChunkNone(data, pos);
    } else {
      var c := Chunk(data, pos, sizes[0]);
      ChunkJoins(data, pos, sizes[0], Sum(sizes[1..]));
      ReadsInOrder(data, pos + |c|, sizes[1..]);
      assert ReadAll(data, pos, sizes) == c + ReadAll(data, pos + |c|, sizes[1..]);
      assert Sum(sizes) == sizes[0] + Sum(sizes[1..]);
      hide ReadAll, Sum;
    }
  }
}
