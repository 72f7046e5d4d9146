// The device as a whole: the command server over the image files of a FAT32 disk behaves, for
// every run of driver calls, like a plain array of sectors per image.
module ImageServer {
  import opened Bytes
  import opened Fat32
  import opened DiskImages
  import opened DirectMapping
  import opened Handshake
  import opened Protocol
  import opened Host
  import opened Session
  import opened FullStack

  // ------------------------------------------------- one disk simulating another

  /** Two disks in states d and e answer a read alike and stay related. */
  ghost predicate ReadAlike<D, E>(be: Backend<D>, ce: Backend<E>, R: (D, E) -> bool, d: D, e: E, u: byte, l: nat) {
    var (d1, status, x) := be.read(d, u, l);
    var (e1, status', x') := ce.read(e, u, l);
    R(d1, e1) && (status == 0 <==> status' == 0) && (status == 0 ==> x == x')
  }

  ghost predicate WriteAlike<D, E>(
    be: Backend<D>, ce: Backend<E>, R: (D, E) -> bool, d: D, e: E, u: byte, l: nat, x: Sector)
  {
    var (d1, status) := be.write(d, u, l, x);
    var (e1, status') := ce.write(e, u, l, x);
    R(d1, e1) && (status == 0 <==> status' == 0)
  }

  /** On units below top, each access keeps two related disks related and answers the same. */
  ghost predicate Simulates<D(!new), E(!new)>(be: Backend<D>, ce: Backend<E>, R: (D, E) -> bool, top: nat) {
    && (forall d, e, u: byte, l: nat :: R(d, e) && u < top && l < 0x1_0000 ==> ReadAlike(be, ce, R, d, e, u, l))
    && (forall d, e, u: byte, l: nat, x: Sector ::
          R(d, e) && u < top && l < 0x1_0000 ==> WriteAlike(be, ce, R, d, e, u, l, x))
  }

  lemma {:induction false} ReadsAlike<D(!new), E(!new)>(
    be: Backend<D>, ce: Backend<E>, R: (D, E) -> bool, top: nat, d: D, e: E, unit: nat, lbn: nat, count: nat)
    requires Simulates(be, ce, R, top) && R(d, e) && unit % 256 < top && lbn < 0x1_0000
    ensures var r, r' := DirectRead(be, d, unit, lbn, count), DirectRead(ce, e, unit, lbn, count);
            R(r.disk, r'.disk) && r.ok == r'.ok && r.blocks == r'.blocks
    decreases count
  {
    if count > 0 {
      var u: byte := unit % 256;
      assert ReadAlike(be, ce, R, d, e, u, lbn);
      var (d1, status, x) := be.read(d, u, lbn);
      var (e1, status', x') := ce.read(e, u, lbn);
      if status == 0 {
        ReadsAlike(be, ce, R, top, d1, e1, unit, NextBlock(lbn), count - 1);
      }
    }
  }

  lemma {:induction false} WritesAlike<D(!new), E(!new)>(
    be: Backend<D>, ce: Backend<E>, R: (D, E) -> bool, top: nat, d: D, e: E, unit: nat, lbn: nat, xs: seq<Sector>)
    requires Simulates(be, ce, R, top) && R(d, e) && unit % 256 < top && lbn < 0x1_0000
    ensures var w, w' := DirectWrite(be, d, unit, lbn, xs), DirectWrite(ce, e, unit, lbn, xs);
            R(w.disk, w'.disk) && w.ok == w'.ok
    decreases |xs|
  {
    if xs != [] {
      var u: byte := unit % 256;
      assert WriteAlike(be, ce, R, d, e, u, lbn, xs[0]);
      var (d1, status) := be.write(d, u, lbn, xs[0]);
      var (e1, status') := ce.write(e, u, lbn, xs[0]);
      if status == 0 {
        WritesAlike(be, ce, R, top, d1, e1, unit, NextBlock(lbn), xs[1..]);
      }
    }
  }

  lemma CallsAlike<D(!new), E(!new)>(be: Backend<D>, ce: Backend<E>, R: (D, E) -> bool, top: nat,
      d: D, e: E, q: Request)
    requires Simulates(be, ce, R, top) && R(d, e) && q.Valid() && q.unit % 256 < top
    ensures var c, c' := DirectCall(be, d, q), DirectCall(ce, e, q);
            R(c.disk, c'.disk) && c.answer == c'.answer
  {
    match q
    case ReadBlocks(unit, lbn, count) => ReadsAlike(be, ce, R, top, d, e, unit, lbn, count);
    case WriteBlocks(unit, lbn, blocks) => WritesAlike(be, ce, R, top, d, e, unit, lbn, blocks);
  }

  /** A run of calls is safe for the server on both of two related disks, or on neither. */
  lemma {:induction false} SafeAlike<D(!new), E(!new)>(
    be: Backend<D>, ce: Backend<E>, R: (D, E) -> bool, top: nat, d: D, e: E, qs: seq<Request>)
    requires Simulates(be, ce, R, top) && R(d, e)
    requires forall q :: q in qs ==> q.Valid() && q.unit % 256 < top
    ensures SafeSession(be, d, qs) <==> SafeSession(ce, e, qs)
    decreases |qs|
  {
    hide Simulates, DirectRead, DirectWrite, Fitting;
    if qs != [] {
      var q := qs[0];
      CallsAlike(be, ce, R, top, d, e, q);
      if q.ReadBlocks? { ReadsAlike(be, ce, R, top, d, e, q.unit, q.lbn, q.count); }
      SafeAlike(be, ce, R, top, DirectCall(be, d, q).disk, DirectCall(ce, e, q).disk, qs[1..]);
    }
  }

  /** Related disks give every run of driver calls the same answers. */
  lemma {:induction false} SessionsAlike<D(!new), E(!new)>(
    be: Backend<D>, ce: Backend<E>, R: (D, E) -> bool, top: nat, d: D, e: E, qs: seq<Request>)
    requires Simulates(be, ce, R, top) && R(d, e)
    requires forall q :: q in qs ==> q.Valid() && q.unit % 256 < top
    ensures var s, s' := DirectSession(be, d, qs), DirectSession(ce, e, qs);
            R(s.disk, s'.disk) && s.answers == s'.answers
    decreases |qs|
  {
    if qs != [] {
      CallsAlike(be, ce, R, top, d, e, qs[0]);
      SessionsAlike(be, ce, R, top, DirectCall(be, d, qs[0]).disk, DirectCall(ce, e, qs[0]).disk, qs[1..]);
    }
  }

  // ------------------------------------------------- images as plain arrays

  /** read_disk_sector behind the server; its -1 is sent on as a byte. */
  function ImageGet(t: Tables, m: Media, u: byte, l: nat): (Media, byte, Sector)
    requires t.Valid()
  {
    var p := Target(t, u, l);
    if p.Some? then (m, 0, m.At(p.value)) else (m, 255, Zeros(512))
  }

  function ImagePut(t: Tables, m: Media, u: byte, l: nat, x: Sector): (Media, byte)
    requires t.Valid()
  {
    var p := Target(t, u, l);
    if p.Some? then (m.Set(p.value, x), 0) else (m, 255)
  }

  type ValidTables = t: Tables | t.Valid() witness NoTables()

  function ImageBackend(t: ValidTables, bitmap: nat): Backend<Media> {
    Backend((m: Media, u: byte, l: nat) => ImageGet(t, m, u, l),
            (m: Media, u: byte, l: nat, x: Sector) => ImagePut(t, m, u, l, x),
            (m: Media) => bitmap,
            (m: Media, u: byte) => DiskBlocks(t, u))
  }

  /** The queries show the bitmap and the sizes, four bytes each, high byte first. */
  lemma ImageQueries(t: ValidTables, bitmap: nat, m: Media, buff: Sector, u: byte, a: byte, b: byte, c: byte, d: byte)
    ensures var w: nat := a as nat * 0x100_0000 + b as nat * 0x1_0000 + c as nat * 0x100 + d as nat;
            var dev := Protocol.Device(Idle, buff, m);
            && (bitmap == w ==> FeedAll(ImageBackend(t, bitmap), dev, [1]).out == [a, b, c, d])
            && (DiskBlocks(t, u) == w ==> FeedAll(ImageBackend(t, bitmap), dev, [2, u]).out == [a, b, c, d])
  {
    QueriesOnWire(ImageBackend(t, bitmap), Protocol.Device(Idle, buff, m), u, a, b, c, d);
  }

  /** Every sector of every image is its own sector of the USB disk. */
  ghost predicate Apart(t: ValidTables) {
    forall i: nat, s: nat, j: nat, r: nat :: InImage(t, i, s) && InImage(t, j, r) ==>
      (t.lba[i] + s == t.lba[j] + r <==> i == j && s == r)
  }

  ghost predicate NoWrap(t: ValidTables) {
    forall i: nat, s: nat :: InImage(t, i, s) ==> t.lba[i] + s < WORD32
  }

  lemma SoundIsApart(g: Geometry, fat: Fat, t: ValidTables)
    requires Sound(g, fat, t)
    ensures Apart(t) && NoWrap(t)
  {
    forall i: nat, s: nat | InImage(t, i, s) ensures t.lba[i] + s < WORD32 {
      ImageTarget(g, fat, t, i, s);
    }
    forall i: nat, s: nat, j: nat, r: nat | InImage(t, i, s) && InImage(t, j, r)
      ensures t.lba[i] + s == t.lba[j] + r <==> i == j && s == r
    {
      ImageTarget(g, fat, t, i, s);
      ImageTarget(g, fat, t, j, r);
      TargetsDiffer(g, fat, t, i, s, j, r);
    }
  }

  /** The array p shows the images on m: a place is bad beyond the end of an image, and a cell
      holds what the image's sector holds. */
  ghost predicate Shows(t: ValidTables, m: Media, p: Plain) {
    && (forall i: nat, s: nat :: i < NR_DISKS && s < 0x1_0000 ==> ((i, s) in p.bad <==> !InImage(t, i, s)))
    && (forall i: nat, s: nat :: InImage(t, i, s) && s < 0x1_0000 ==> p.Cell(i, s) == m.At(t.lba[i] + s))
  }

  ghost function Showing(t: ValidTables): (Media, Plain) -> bool {
    (m: Media, p: Plain) => Shows(t, m, p)
  }

  lemma GetShows(t: ValidTables, bitmap: nat, m: Media, p: Plain, u: byte, l: nat)
    requires NoWrap(t) && Shows(t, m, p) && u < NR_DISKS && l < 0x1_0000
    ensures ReadAlike(ImageBackend(t, bitmap), PlainBackend(), Showing(t), m, p, u, l)
  {
    assert ImageBackend(t, bitmap).read(m, u, l) == ImageGet(t, m, u, l);
    assert PlainBackend().read(p, u, l) == PlainGet(p, u, l);
  }

  lemma PutShows(t: ValidTables, bitmap: nat, m: Media, p: Plain, u: byte, l: nat, x: Sector)
    requires Apart(t) && NoWrap(t) && Shows(t, m, p) && u < NR_DISKS && l < 0x1_0000
    ensures WriteAlike(ImageBackend(t, bitmap), PlainBackend(), Showing(t), m, p, u, l, x)
  {
    assert ImageBackend(t, bitmap).write(m, u, l, x) == ImagePut(t, m, u, l, x);
    assert PlainBackend().write(p, u, l, x) == PlainPut(p, u, l, x);
  }

  lemma ImagesSimulatePlain(t: ValidTables, bitmap: nat)
    requires Apart(t) && NoWrap(t)
    ensures Simulates(ImageBackend(t, bitmap), PlainBackend(), Showing(t), NR_DISKS)
  {
    var be, ce, R := ImageBackend(t, bitmap), PlainBackend(), Showing(t);
    forall m, p, u: byte, l: nat | R(m, p) && u < NR_DISKS && l < 0x1_0000 ensures ReadAlike(be, ce, R, m, p, u, l) {
      GetShows(t, bitmap, m, p, u, l);
    }
    forall m, p, u: byte, l: nat, x: Sector | R(m, p) && u < NR_DISKS && l < 0x1_0000
      ensures WriteAlike(be, ce, R, m, p, u, l, x)
    {
      PutShows(t, bitmap, m, p, u, l, x);
    }
  }

  /** Sector s of image i, by walking the chain of the file that init_disk accepts for it. */
  ghost function FileSector(m: Media, n: nat, i: nat, s: nat): Sector
    requires Mountable(m, n)
  {
    var e := Accepted(m, n, i);
    var p := if e.Some? then Visit(GeometryOf(m), FatIn(m), e.value.cluster, s) else None;
    if p.Some? then m.At(p.value) else Zeros(512)
  }

  ghost predicate InFile(m: Media, n: nat, i: nat, s: nat) {
    i < NR_DISKS && Accepted(m, n, i).Some? && s < Accepted(m, n, i).value.size / 512
  }

  /** The plain array of the files: each as long as its directory entry says. */
  ghost function PlainFiles(m: Media, n: nat): Plain
    requires Mountable(m, n)
  {
    Plain(map i: nat, s: nat | i < NR_DISKS && s < 0x1_0000 && InFile(m, n, i, s) :: (i, s) := FileSector(m, n, i, s),
          set i: nat, s: nat | i < NR_DISKS && s < 0x1_0000 && !InFile(m, n, i, s) :: (i, s))
  }

  /** The tables map just the sectors of the accepted files, to where the chain walk finds them. */
  lemma TablesAreFiles(m: Media, n: nat, t: ValidTables, bitmap: nat, i: nat, s: nat)
    requires Mounted(m, n, t, bitmap) && SoundFiles(m, n) && i < NR_DISKS
    ensures InImage(t, i, s) <==> InFile(m, n, i, s)
    ensures InImage(t, i, s) ==> FileSector(m, n, i, s) == m.At(t.lba[i] + s)
  {
    hide Visit, FatOf, BootGeometry, RootEntries;
    assert ActiveAt(m, n, t, bitmap, i);
    if InImage(t, i, s) {
      SoundFilesAreSound(m, n, t, bitmap);
      var g, fat, c := GeometryOf(m), FatIn(m), t.cluster[i];
      var len := Length(fat, c);
      assert Covered(g, t, i, len);
      MappedVisit(g, fat, c, len, t.lba[i], s);
    }
  }

  lemma FilesShow(m: Media, n: nat, t: ValidTables, bitmap: nat)
    requires Mounted(m, n, t, bitmap) && SoundFiles(m, n)
    ensures Shows(t, m, PlainFiles(m, n))
  {
    hide InFile, FileSector, InImage, Mountable, Active, SoundFiles;
    forall i: nat, s: nat | i < NR_DISKS
      ensures InImage(t, i, s) <==> InFile(m, n, i, s)
      ensures InImage(t, i, s) ==> FileSector(m, n, i, s) == m.At(t.lba[i] + s)
    {
      TablesAreFiles(m, n, t, bitmap, i, s);
    }
    InImageBelow(t);
  }

  lemma InImageBelow(t: ValidTables)
    ensures forall i: nat, s: nat :: InImage(t, i, s) ==> i < NR_DISKS
  {
  }

  /**
    Refinement: whatever is read and written, in whatever order and however the requests run over
    the ends of the files, the server over accepted images gives the answers that an array of the
    files' sectors, found by walking their chains, would; and the images keep showing that array.
   */
  lemma ImagesRefinePlain(m: Media, n: nat, t: ValidTables, bitmap: nat, qs: seq<Request>)
    requires Mounted(m, n, t, bitmap) && SoundFiles(m, n)
    requires forall q :: q in qs ==> q.Valid() && q.unit % 256 < NR_DISKS
    ensures var s := DirectSession(ImageBackend(t, bitmap), m, qs);
            var s' := DirectSession(PlainBackend(), PlainFiles(m, n), qs);
            s.answers == s'.answers && Shows(t, s.disk, s'.disk)
    ensures SafeSession(ImageBackend(t, bitmap), m, qs) <==> SafeSession(PlainBackend(), PlainFiles(m, n), qs)
  {
    hide DirectSession, SafeSession, Mountable, Active, SoundFiles, Sound;
    hide Simulates, Shows, PlainFiles, PlainBackend, ImageBackend;
    SoundFilesAreSound(m, n, t, bitmap);
    SoundIsApart(GeometryOf(m), FatIn(m), t);
    ImagesSimulatePlain(t, bitmap);
    FilesShow(m, n, t, bitmap);
    var p := PlainFiles(m, n);
    SessionsAlike(ImageBackend(t, bitmap), PlainBackend(), Showing(t), NR_DISKS, m, p, qs);
    SafeAlike(ImageBackend(t, bitmap), PlainBackend(), Showing(t), NR_DISKS, m, p, qs);
  }

  /** The driver's calls against the device, byte by byte on the line, are calls on that array. */
  method DriverOnImages(m: Media, ghost n: nat, t: ValidTables, bitmap: nat, buff: Sector, qs: seq<Request>)
    returns (answers: seq<Answer>, ghost script: seq<Op>)
    requires Mounted(m, n, t, bitmap) && SoundFiles(m, n) && SafeSession(PlainBackend(), PlainFiles(m, n), qs)
    requires forall q :: q in qs ==> q.Valid() && q.unit % 256 < NR_DISKS
    ensures answers == DirectSession(PlainBackend(), PlainFiles(m, n), qs).answers
    ensures exists end :: Conversation(ImageBackend(t, bitmap), Protocol.Device(Idle, buff, m), script, end)
  {
    hide DirectSession, SafeSession, SoundFiles, PlainFiles, PlainBackend, ImageBackend, Conversation;
    ImagesRefinePlain(m, n, t, bitmap, qs);
    var end;
    answers, end, script := DriverSession(ImageBackend(t, bitmap), Protocol.Device(Idle, buff, m), qs);
  }

  /** From a USB disk to the driver's answers: init_disk on cleared tables, then the session. */
  method MountAndServe(m: Media, ghost n: nat, buff: Sector, qs: seq<Request>) returns (r: nat, answers: seq<Answer>)
    requires Signed(m.At(0)) ==>
               Mountable(m, n) && SoundFiles(m, n) && SafeSession(PlainBackend(), PlainFiles(m, n), qs)
    requires forall q :: q in qs ==> q.Valid() && q.unit % 256 < NR_DISKS
    ensures r == if m.At(0)[0x1fe] == 0x55 && m.At(0)[0x1ff] == 0xaa then 0 else 1
    ensures r == 0 ==> answers == DirectSession(PlainBackend(), PlainFiles(m, n), qs).answers
  {
    hide DirectSession, SafeSession, SoundFiles, PlainFiles, PlainBackend, Mountable, Active;
    var images := new Images(m);
    r := images.InitDisk(n);
    answers := [];
    if r == 0 {
      var t := Tables(images.diskLba[..], images.diskBlocks[..], images.diskCluster[..],
                      images.cfgLba, images.cfgBlocks, images.cfgCluster);
      ghost var script;
      answers, script := DriverOnImages(m, n, t, images.diskBitmap, buff, qs);
    }
  }
}
