// What the direct mapping of fs/fat32.c stands for: sector s of an image is the s-th sector met
// when its cluster chain is walked, and writing images disturbs nothing but what is written.
module DirectMapping {
  import opened Bytes
  import opened Fat32
  import opened DiskImages

  /** A disk that init_disk accepted, with the tables and the bitmap it left. */
  ghost predicate Mounted(m: Media, n: nat, t: Tables, bitmap: nat) {
    Mountable(m, n) && Active(m, n, t, bitmap)
  }

  ghost function Length(fat: Fat, c: nat): (n: nat)
    requires Gapless(fat, c)
    ensures Straight(fat, c, n)
  {
    var n: nat :| Straight(fat, c, n);
    n
  }

  /** Clusters c, ..., c + len - 1 lie on the disk, and lba is where they start. */
  ghost predicate Mapped(g: Geometry, fat: Fat, c: nat, len: nat, lba: nat) {
    && g.Usable() && c >= 2 && Straight(fat, c, len) && lba == g.Lba(c)
    && (len > 0 ==> g.Fits(c + len - 1))
  }

  ghost predicate ImageMapped(g: Geometry, fat: Fat, t: Tables, i: nat)
    requires t.Valid() && i < NR_DISKS
  {
    && Gapless(fat, t.cluster[i]) && t.lba[i] != 0
    && Mapped(g, fat, t.cluster[i], Length(fat, t.cluster[i]), t.lba[i])
  }

  lemma ChainFits(g: Geometry, fat: Fat, c: nat, len: nat)
    requires Startable(g, fat, c) && Straight(fat, c, len)
    ensures len > 0 ==> g.Fits(c + len - 1)
  {
    if len > 1 {
      var d := c + len - 2;
      assert !Terminator(d + 1) && fat(d) == d + 1 && Linked(fat, c, d);
    }
  }

  lemma EntryMapped(g: Geometry, fat: Fat, es: seq<DirEntry>, t: Tables, i: nat)
    requires g.Usable() && StartsFit(g, fat, es) && t.Valid() && i < NR_DISKS && t.lba[i] != 0
    requires Holds(StartOf(g), WithoutGaps(fat, LastDisk(es, i)), t.lba[i], t.blocks[i], t.cluster[i])
    ensures ImageMapped(g, fat, t, i)
  {
    FoundStarts(g, fat, es, i);
    ChainFits(g, fat, t.cluster[i], Length(fat, t.cluster[i]));
  }

  function GeometryOf(m: Media): Geometry { BootGeometry(m.At(0)) }

  function FatIn(m: Media): Fat { FatOf(GeometryOf(m), m) }

  lemma ActiveIsMapped(m: Media, n: nat, t: Tables, bitmap: nat, i: nat)
    requires Mounted(m, n, t, bitmap) && i < NR_DISKS && t.lba[i] != 0
    ensures ImageMapped(GeometryOf(m), FatIn(m), t, i)
  {
    assert ActiveAt(m, n, t, bitmap, i);
    EntryMapped(GeometryOf(m), FatIn(m), RootEntries(m, n), t, i);
  }

  // ---------------------------------------------- the fast path and the chain walk

  lemma {:induction false} StraightEnds(fat: Fat, c: nat, n: nat)
    requires Straight(fat, c, n)
    ensures EndsWithin(fat, c, n)
    decreases n
  {
    if n > 0 {
      if n > 1 { assert fat(c) == c + 1 && !Terminator(c + 1); }
      StraightEnds(fat, fat(c), n - 1);
    }
  }

  lemma {:induction false} VisitSmall(g: Geometry, fat: Fat, c: nat, s: nat)
    requires g.spc >= 1
    ensures var v := Visit(g, fat, c, s); v.Some? ==> v.value < WORD32
    decreases s
  {
    if !Terminator(c) && s >= g.spc { VisitSmall(g, fat, fat(c), s - g.spc); }
  }

  /** Sectors in the chain and in the file: the sum is the walk's, and it does not wrap. */
  lemma MappedVisit(g: Geometry, fat: Fat, c: nat, len: nat, lba: nat, s: nat)
    requires Mapped(g, fat, c, len, lba)
    ensures Visit(g, fat, c, s) == if s < g.spc * len then Some(lba + s) else None
    ensures s < g.spc * len ==> lba + s < WORD32
  {
    VisitStraight(g, fat, c, len, s);
    VisitSmall(g, fat, c, s);
  }

  /** The sectors read_file would visit in the chain of image i. */
  ghost function ImageWalk(g: Geometry, fat: Fat, t: Tables, i: nat): seq<nat>
    requires t.Valid() && i < NR_DISKS && ImageMapped(g, fat, t, i)
  {
    WalkSectors(g, fat, t.cluster[i], Length(fat, t.cluster[i]))
  }

  lemma WalkOfMapped(g: Geometry, fat: Fat, c: nat, len: nat, lba: nat, s: nat)
    requires Mapped(g, fat, c, len, lba)
    ensures var walk := WalkSectors(g, fat, c, len);
            (s < |walk| <==> s < g.spc * len) && (s < |walk| ==> walk[s] == lba + s < WORD32)
  {
    StraightEnds(fat, c, len);
    WalkIsVisit(g, fat, c, len, s);
    MappedVisit(g, fat, c, len, lba, s);
  }

  lemma MappedWalk(g: Geometry, fat: Fat, t: Tables, i: nat, s: nat)
    requires t.Valid() && i < NR_DISKS && ImageMapped(g, fat, t, i) && s < t.blocks[i]
    ensures var walk := ImageWalk(g, fat, t, i);
            if s < |walk| then Target(t, i, s) == Some(walk[s]) else Target(t, i, s).Some?
  {
    hide Length, WalkSectors, Mapped, Gapless;
    WalkOfMapped(g, fat, t.cluster[i], Length(fat, t.cluster[i]), t.lba[i], s);
  }

  /**
    The direct mapping gives the sector that walking the chain gives exactly as far as the chain
    goes: for a file longer than its chain the two part at the first sector not covered.
   */
  lemma FastPathIsChainWalkIff(m: Media, n: nat, t: Tables, bitmap: nat, i: nat, s: nat)
    requires Mounted(m, n, t, bitmap) && i < NR_DISKS && t.lba[i] != 0 && s < t.blocks[i]
    ensures ImageMapped(GeometryOf(m), FatIn(m), t, i)
    ensures var walk := ImageWalk(GeometryOf(m), FatIn(m), t, i);
            Target(t, i, s) == (if s < |walk| then Some(walk[s]) else None) <==> s < |walk|
  {
    ActiveIsMapped(m, n, t, bitmap, i);
    MappedWalk(GeometryOf(m), FatIn(m), t, i, s);
  }

  /** The size that get_disk_blocks reports for an image is that of the file init_disk accepted, in
      whole sectors, or 0; and just as many sectors of it can be accessed. */
  lemma CapacityIsAccepted(m: Media, n: nat, t: Tables, bitmap: nat, i: nat, s: nat)
    requires Active(m, n, t, bitmap) && i < NR_DISKS
    ensures DiskBlocks(t, i) == match Accepted(m, n, i) case None => 0 case Some(e) => e.size / 512
    ensures Target(t, i, s).Some? <==> s < DiskBlocks(t, i)
  {
    assert ActiveAt(m, n, t, bitmap, i);
  }

  // ---------------------------------------------- init_disk and access, on the bytes of the disk

  /** The root directory's sectors, in the order in which they are scanned. */
  function RootSectors(m: Media, n: nat): seq<nat> {
    var g := GeometryOf(m);
    WalkSectors(g, FatIn(m), g.root, n)
  }

  /** The first sector of cluster c, from the fields of the boot sector. */
  function ClusterStart(boot: Sector, c: nat): int {
    Le16(boot, 0x0e) + 2 * Le32(boot, 0x24) + (boot[0x0d] as nat) * (c - 2)
  }

  lemma AcceptedStart(m: Media, n: nat, t: Tables, bitmap: nat, i: nat)
    requires Mounted(m, n, t, bitmap) && i < 16
    ensures t.Valid() && (Bit(bitmap, i) <==> Accepted(m, n, i).Some?) && (t.lba[i] != 0 <==> Accepted(m, n, i).Some?)
    ensures Accepted(m, n, i).Some? ==> t.lba[i] == ClusterStart(m.At(0), Accepted(m, n, i).value.cluster)
    ensures Accepted(m, n, i).Some? ==> t.blocks[i] == Accepted(m, n, i).value.size / 512
  {
    hide RootEntries, LastDisk, Bit, Le16, Le32, Gapless, FatOf;
    assert ActiveAt(m, n, t, bitmap, i);
    if Accepted(m, n, i).Some? {
      var g, e := GeometryOf(m), Accepted(m, n, i).value;
      assert GoodFind(g, FatIn(m), LastDisk(RootEntries(m, n), i));
      LbaFits(g, e.cluster);
    }
  }

  /**
    What init_disk makes of the bytes of the disk. Image i < 16 is active if and only if some slot
    of the root directory names it and the chain of the last such slot is straight. Then sector s
    of the image, up to the size in that slot, is s sectors after the start of its first cluster.
   */
  lemma ImagesByBytes(m: Media, n: nat, t: Tables, bitmap: nat, i: nat) returns (p: int, k: int)
    requires Mounted(m, n, t, bitmap) && i < 16
    ensures var ss := RootSectors(m, n);
            && -1 <= p < |ss| && (p >= 0 ==> 0 <= k < 16 && ImageSlot(m.At(ss[p]), k, i))
            && (forall q: nat, l: nat :: q < |ss| && Before(p, k, q, l) ==> !ImageSlot(m.At(ss[q]), l, i))
    ensures Bit(bitmap, i) <==> p >= 0 && Gapless(FatIn(m), SlotEntry(m.At(RootSectors(m, n)[p]), k).cluster)
    ensures forall s: nat :: Target(t, i, s) ==
              if Bit(bitmap, i) && s < SlotEntry(m.At(RootSectors(m, n)[p]), k).size / 512
              then Some((ClusterStart(m.At(0), SlotEntry(m.At(RootSectors(m, n)[p]), k).cluster) + s) % 0x1_0000_0000)
              else None
  {
    hide Bit, ImageSlot, Gapless, ClusterStart, SlotEntry, LastDisk, EntriesOf, FatOf, WalkSectors, Mountable, Active;
    AcceptedStart(m, n, t, bitmap, i);
    p, k := LastDiskIsLastSlot(m, RootSectors(m, n), i);
  }

  /** Disk 0xff is the configuration file, as far as its size goes, whatever the images are. */
  lemma ConfigAccess(t: Tables, s: nat)
    requires t.Valid()
    ensures Target(t, 0xff, s) == if t.cfgLba > 0 && s < t.cfgBlocks then Some((t.cfgLba + s) % 0x1_0000_0000) else None
    ensures DiskBlocks(t, 0xff) == t.cfgBlocks
    ensures forall disk: byte :: 16 <= disk < 0xff ==> Target(t, disk, s) == None && DiskBlocks(t, disk) == 0
  {
  }

  // ---------------------------------------------- isolation of writes

  /** The k-th cluster of the chain from c is d. */
  predicate OnChain(fat: Fat, c: nat, d: nat, k: nat)
    decreases k
  {
    !Terminator(c) && if k == 0 then c == d else OnChain(fat, fat(c), d, k - 1)
  }

  /** It is enough for the contiguity check that every cluster of the chain lies on the disk. */
  lemma ChainOnDiskFits(g: Geometry, fat: Fat, start: nat)
    requires g.Fits(start) && forall d: nat, k: nat :: OnChain(fat, start, d, k) ==> g.Fits(d)
    ensures WalkFits(g, fat, start)
  {
    forall p: nat | start <= p && Linked(fat, start, p) && !Terminator(fat(p)) ensures g.Fits(fat(p)) {
      LinkedOnChain(fat, start, p, fat(p));
    }
  }

  lemma {:induction false} LinkedOnChain(fat: Fat, start: nat, p: nat, d: nat)
    requires start <= p && Linked(fat, start, p) && d == fat(p) && !Terminator(d)
    ensures OnChain(fat, start, d, p + 1 - start)
    decreases p - start
  {
    if start < p {
      assert fat(start) == start + 1;
      LinkedOnChain(fat, start + 1, p, d);
    } else {
      assert OnChain(fat, d, d, 0);
    }
  }

  ghost predicate CrossLinked(fat: Fat, a: nat, b: nat) {
    exists d: nat, j: nat, k: nat :: OnChain(fat, a, d, j) && OnChain(fat, b, d, k)
  }

  lemma {:induction false} StraightOnChain(fat: Fat, c: nat, n: nat, k: nat)
    requires Straight(fat, c, n) && k < n
    ensures OnChain(fat, c, c + k, k)
    decreases k
  {
    if k > 0 {
      assert fat(c) == c + 1;
      StraightOnChain(fat, c + 1, n - 1, k - 1);
    }
  }

  lemma DisjointRanges(fat: Fat, a: nat, la: nat, b: nat, lb: nat)
    requires Straight(fat, a, la) && Straight(fat, b, lb) && la > 0 && lb > 0 && !CrossLinked(fat, a, b)
    ensures a + la <= b || b + lb <= a
  {
    var d := if a < b then b else a;
    if d < a + la && d < b + lb {
      StraightOnChain(fat, a, la, d - a);
      StraightOnChain(fat, b, lb, d - b);
    }
  }

  /** A chain that ends before another starts ends before it on the disk, too. */
  lemma ChainBefore(g: Geometry, fat: Fat, a: nat, la: nat, lbaA: nat, b: nat, lb: nat, lbaB: nat)
    requires Mapped(g, fat, a, la, lbaA) && Mapped(g, fat, b, lb, lbaB) && lb > 0 && a + la <= b
    ensures lbaA + g.spc * la <= lbaB
  {
    LbaBelow(g, b, b + lb - 1);
    if la > 0 { LbaBelow(g, a, a + la - 1); } else { LbaBelow(g, a, b + lb - 1); }
    MulAdd(g.spc, a - 2, la);
    MulMono(g.spc, a - 2 + la, b - 2);
  }

  /** Every image's file is covered by its chain, inside the FAT, and no two chains meet. */
  ghost predicate Sound(g: Geometry, fat: Fat, t: Tables)
    requires t.Valid()
  {
    && (forall i: nat :: i < NR_DISKS && t.lba[i] != 0 ==>
          ImageMapped(g, fat, t, i) && Covered(g, t, i, Length(fat, t.cluster[i])))
    && (forall i: nat, j: nat :: i < j < NR_DISKS && t.lba[i] != 0 && t.lba[j] != 0 ==>
          !CrossLinked(fat, t.cluster[i], t.cluster[j]))
  }

  /** The same on the directory entries init_disk accepts: each file is covered by its chain, inside
      the FAT, and no two of them are cross-linked. */
  ghost predicate SoundFiles(m: Media, n: nat) {
    var g, fat := GeometryOf(m), FatIn(m);
    && (forall i: nat :: i < NR_DISKS && Accepted(m, n, i).Some? ==> FileCovered(g, fat, Accepted(m, n, i).value))
    && (forall i: nat, j: nat :: i < j < NR_DISKS && Accepted(m, n, i).Some? && Accepted(m, n, j).Some? ==>
          !CrossLinked(fat, Accepted(m, n, i).value.cluster, Accepted(m, n, j).value.cluster))
  }

  ghost predicate FileCovered(g: Geometry, fat: Fat, e: DirEntry) {
    && Gapless(fat, e.cluster) && e.size / 512 <= g.spc * Length(fat, e.cluster)
    && e.cluster + Length(fat, e.cluster) <= 128 * g.spf
  }

  lemma SoundFilesAreSound(m: Media, n: nat, t: Tables, bitmap: nat)
    requires Mounted(m, n, t, bitmap) && SoundFiles(m, n)
    ensures Sound(GeometryOf(m), FatIn(m), t)
  {
    forall i: nat | i < NR_DISKS && t.lba[i] != 0
      ensures Accepted(m, n, i).Some? && t.cluster[i] == Accepted(m, n, i).value.cluster
      ensures ImageMapped(GeometryOf(m), FatIn(m), t, i)
      ensures Covered(GeometryOf(m), t, i, Length(FatIn(m), t.cluster[i]))
    {
      ActiveIsMapped(m, n, t, bitmap, i);
      assert ActiveAt(m, n, t, bitmap, i);
      assert FileCovered(GeometryOf(m), FatIn(m), Accepted(m, n, i).value);
    }
  }

  predicate Covered(g: Geometry, t: Tables, i: nat, len: nat)
    requires t.Valid() && i < NR_DISKS
  {
    t.blocks[i] <= g.spc * len && t.cluster[i] + len <= 128 * g.spf
  }

  /** Sector s of image i exists. */
  predicate InImage(t: Tables, i: nat, s: nat)
    requires t.Valid()
  {
    i < NR_DISKS && t.lba[i] != 0 && s < t.blocks[i]
  }

  lemma FactorPositive(a: nat, b: nat, s: nat)
    requires s < a * b
    ensures b > 0
  {
  }

  lemma MappedStart(g: Geometry, fat: Fat, c: nat, len: nat, lba: nat, s: nat)
    requires Mapped(g, fat, c, len, lba) && s < g.spc * len
    ensures len > 0 && g.Base() <= lba && lba + s < WORD32
  {
    MappedVisit(g, fat, c, len, lba, s);
    FactorPositive(g.spc, len, s);
    LbaBelow(g, c, c + len - 1);
  }

  lemma ImageTarget(g: Geometry, fat: Fat, t: Tables, i: nat, s: nat)
    requires t.Valid() && Sound(g, fat, t) && InImage(t, i, s)
    ensures Target(t, i, s) == Some(t.lba[i] + s) && t.lba[i] + s >= g.Base()
    ensures Length(fat, t.cluster[i]) > 0
  {
    hide Length, Mapped;
    var len := Length(fat, t.cluster[i]);
    assert Covered(g, t, i, len);
    assert s < g.spc * len;
    MappedStart(g, fat, t.cluster[i], len, t.lba[i], s);
  }

  /** Different image sectors are different sectors of the USB disk. */
  lemma TargetsDiffer(g: Geometry, fat: Fat, t: Tables, i: nat, s: nat, j: nat, r: nat)
    requires t.Valid() && Sound(g, fat, t) && InImage(t, i, s) && InImage(t, j, r)
    ensures Target(t, i, s) == Target(t, j, r) <==> i == j && s == r
  {
    ImageTarget(g, fat, t, i, s);
    ImageTarget(g, fat, t, j, r);
    if i < j {
      ImagesApart(g, fat, t, i, s, j, r);
    } else if j < i {
      ImagesApart(g, fat, t, j, r, i, s);
    }
  }

  lemma ImagesApart(g: Geometry, fat: Fat, t: Tables, i: nat, s: nat, j: nat, r: nat)
    requires t.Valid() && Sound(g, fat, t) && InImage(t, i, s) && InImage(t, j, r) && i < j
    ensures t.lba[i] + s != t.lba[j] + r
  {
    var a, b := t.cluster[i], t.cluster[j];
    var la, lb := Length(fat, a), Length(fat, b);
    ImageTarget(g, fat, t, i, s);
    ImageTarget(g, fat, t, j, r);
    DisjointRanges(fat, a, la, b, lb);
    if a + la <= b {
      ChainBefore(g, fat, a, la, t.lba[i], b, lb, t.lba[j]);
    } else {
      ChainBefore(g, fat, b, lb, t.lba[j], a, la, t.lba[i]);
    }
  }

  datatype Write = Write(disk: byte, sector: nat, data: Sector)

  /** The USB disk after a run of write_disk_sector calls. */
  function AfterWrites(t: Tables, m: Media, ws: seq<Write>): Media
    requires t.Valid()
    decreases |ws|
  {
    if ws == [] then m
    else
      var w, m1 := ws[|ws| - 1], AfterWrites(t, m, ws[..|ws| - 1]);
      var p := Target(t, w.disk, w.sector);
      if p.Some? then m1.Set(p.value, w.data) else m1
  }

  /** What the run last wrote to a sector of an image, or what was there before. */
  function LastWritten(ws: seq<Write>, i: nat, s: nat, before: Sector): Sector
    decreases |ws|
  {
    if ws == [] then before
    else
      var w := ws[|ws| - 1];
      if w.disk == i && w.sector == s then w.data else LastWritten(ws[..|ws| - 1], i, s, before)
  }

  ghost predicate ImagesOnly(ws: seq<Write>) {
    forall w :: w in ws ==> w.disk < NR_DISKS
  }

  /** Each image sector holds what was last written to it, whatever was written elsewhere. */
  lemma {:induction false} WritesLand(g: Geometry, fat: Fat, m: Media, t: Tables, ws: seq<Write>, i: nat, s: nat)
    requires t.Valid() && Sound(g, fat, t) && ImagesOnly(ws) && InImage(t, i, s)
    ensures var p := Target(t, i, s).value;
            AfterWrites(t, m, ws).At(p) == LastWritten(ws, i, s, m.At(p))
    decreases |ws|
  {
    ImageTarget(g, fat, t, i, s);
    if ws != [] {
      var w := ws[|ws| - 1];
      WritesLand(g, fat, m, t, ws[..|ws| - 1], i, s);
      if InImage(t, w.disk, w.sector) {
        TargetsDiffer(g, fat, t, i, s, w.disk, w.sector);
      }
    }
  }

  /** p belongs to no image. */
  ghost predicate Outside(t: Tables, p: nat)
    requires t.Valid()
  {
    forall i: byte, s: nat :: InImage(t, i, s) ==> Target(t, i, s) != Some(p)
  }

  lemma {:induction false} WritesStayInside(m: Media, t: Tables, ws: seq<Write>, p: nat)
    requires t.Valid() && ImagesOnly(ws) && Outside(t, p)
    ensures AfterWrites(t, m, ws).At(p) == m.At(p)
    decreases |ws|
  {
    if ws != [] {
      var w := ws[|ws| - 1];
      WritesStayInside(m, t, ws[..|ws| - 1], p);
      assert InImage(t, w.disk, w.sector) ==> Target(t, w.disk, w.sector) != Some(p);
    }
  }

  lemma BelowDataIsOutside(g: Geometry, fat: Fat, t: Tables, p: nat)
    requires t.Valid() && Sound(g, fat, t) && p < g.Base()
    ensures Outside(t, p)
  {
    forall i: byte, s: nat | InImage(t, i, s) ensures Target(t, i, s) != Some(p) {
      ImageTarget(g, fat, t, i, s);
    }
  }

  lemma SameEntries(g: Geometry, m: Media, m': Media, c: nat)
    requires forall p: nat :: p < g.Base() ==> m'.At(p) == m.At(p)
    requires c < 128 * g.spf
    ensures FatOf(g, m')(c) == FatOf(g, m)(c)
  {
    assert g.reserved + c / 128 < g.Base();
  }

  /**
    Any run of writes to images leaves the boot sector, the reserved sectors and both FATs alone
    (see FatCopy for where they lie); so every image is still a straight chain of the same length, mapped as before.
   */
  lemma WritesKeepMapping(m: Media, t: Tables, ws: seq<Write>, i: nat)
    requires t.Valid() && Sound(GeometryOf(m), FatIn(m), t) && ImagesOnly(ws) && i < NR_DISKS && t.lba[i] != 0
    ensures var m', g, boot := AfterWrites(t, m, ws), GeometryOf(m), m.At(0);
            && (forall p: nat :: p < Le16(boot, 0x0e) + 2 * Le32(boot, 0x24) ==> m'.At(p) == m.At(p))
            && GeometryOf(m') == g
            && ImageMapped(g, FatIn(m'), t, i)
            && ImageWalk(g, FatIn(m'), t, i) == ImageWalk(g, FatIn(m), t, i)
  {
    var m', g, fat := AfterWrites(t, m, ws), GeometryOf(m), FatIn(m);
    forall p: nat | p < g.Base() ensures m'.At(p) == m.At(p) {
      BelowDataIsOutside(g, fat, t, p);
      WritesStayInside(m, t, ws, p);
    }
    assert 0 < g.Base();
    var c := t.cluster[i];
    var len := Length(fat, c);
    forall d: nat | d < c + len ensures FatIn(m')(d) == fat(d) { SameEntries(g, m, m', d); }
    SameChain(g, fat, FatIn(m'), c, len, t.lba[i]);
  }

  lemma SameChain(g: Geometry, fat: Fat, fat': Fat, c: nat, len: nat, lba: nat)
    requires Mapped(g, fat, c, len, lba) && forall d: nat :: d < c + len ==> fat'(d) == fat(d)
    ensures Gapless(fat', c) && Length(fat', c) == len && Mapped(g, fat', c, len, lba)
    ensures WalkSectors(g, fat', c, len) == WalkSectors(g, fat, c, len)
  {
    assert Straight(fat', c, len);
    StraightUnique(fat', c, len, Length(fat', c));
    SameWalk(g, fat, fat', c, len);
  }

  lemma {:induction false} SameWalk(g: Geometry, fat: Fat, fat': Fat, c: nat, len: nat)
    requires Straight(fat, c, len) && forall d: nat :: d < c + len ==> fat'(d) == fat(d)
    ensures WalkSectors(g, fat', c, len) == WalkSectors(g, fat, c, len)
    decreases len
  {
    if len > 1 {
      assert fat(c) == c + 1;
      SameWalk(g, fat, fat', c + 1, len - 1);
    }
  }
}
