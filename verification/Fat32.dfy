// The FAT32 reader of fs/fat32.c (first half): cluster chains, the one-sector FAT cache they are
// walked through, and the contiguity check. The layout is that of the Microsoft FAT32 File System
// Specification, version 1.03, section "FAT Data Structure".
module Fat32 {
  import opened Bytes

  const WORD32 := 0x1_0000_0000

  /** The USB disk as the FAT code sees it: every read and write succeeds. */
  datatype Media = Media(sectors: map<nat, Sector>) {
    function At(n: nat): Sector {
      if n in sectors then sectors[n] else Zeros(512)
    }

    function Set(n: nat, x: Sector): Media {
      Media(sectors[n := x])
    }
  }

  function Le16(s: seq<byte>, i: nat): (w: nat)
    requires i + 2 <= |s|
    ensures w < 0x1_0000
  {
    s[i] as nat + s[i + 1] as nat * 0x100
  }

  function Le32(s: seq<byte>, i: nat): (w: nat)
    requires i + 4 <= |s|
    ensures w < WORD32
  {
    Le16(s, i) + Le16(s, i + 2) * 0x1_0000
  }

  /** The n little-endian bytes of a number, as FAT32 stores them. */
  function LittleEndian(w: nat, n: nat): (b: seq<byte>)
    ensures |b| == n
  {
    if n == 0 then [] else [w % 256] + LittleEndian(w / 256, n - 1)
  }

  /** Least significant byte first. */
  lemma BytesOfWord(a: byte, b: byte, c: byte, d: byte)
    ensures LittleEndian(a as nat + b as nat * 0x100 + c as nat * 0x1_0000 + d as nat * 0x100_0000, 4) == [a, b, c, d]
    ensures LittleEndian(a as nat + b as nat * 0x100, 2) == [a, b]
  {
    var hi: nat := c as nat + d as nat * 0x100;
    var w: nat := a as nat + b as nat * 0x100 + hi * 0x1_0000;
    TwoBytes(a, b);
    TwoBytes(c, d);
    FourBytes(w);
    assert w % 0x1_0000 == a as nat + b as nat * 0x100 && w / 0x1_0000 == hi;
    assert LittleEndian(w, 4) == LittleEndian(w, 4)[..2] + LittleEndian(w, 4)[2..];
  }

  lemma TwoBytes(a: byte, b: byte)
    ensures LittleEndian(a as nat + b as nat * 0x100, 2) == [a, b]
  {
    var w: nat := a as nat + b as nat * 0x100;
    assert w % 256 == a as nat && w / 256 == b as nat;
    assert LittleEndian(w, 2) == [w % 256] + LittleEndian(w / 256, 1) == [w % 256] + ([w / 256 % 256] + []);
  }

  lemma ReadsLe16(s: seq<byte>, i: nat, w: nat)
    requires i + 2 <= |s| && w < 0x1_0000 && s[i..i + 2] == LittleEndian(w, 2)
    ensures Le16(s, i) == w
  {
    var b := s[i..i + 2];
    assert b[0] == w % 256 && b[1] == w / 256 % 256;
    assert s[i] == b[0] && s[i + 1] == b[1];
  }

  lemma ReadsLe32(s: seq<byte>, i: nat, w: nat)
    requires i + 4 <= |s| && w < WORD32 && s[i..i + 4] == LittleEndian(w, 4)
    ensures Le32(s, i) == w
  {
    FourBytes(w);
    Halves(s, i);
    ReadsLe16(s, i, w % 0x1_0000);
    ReadsLe16(s, i + 2, w / 0x1_0000);
  }

  lemma Halves(s: seq<byte>, i: nat)
    requires i + 4 <= |s|
    ensures s[i..i + 2] == s[i..i + 4][..2] && s[i + 2..i + 4] == s[i..i + 4][2..]
  {
  }

  /** A 32-bit word is its low half followed by its high half. */
  lemma FourBytes(w: nat)
    ensures LittleEndian(w, 4)[..2] == LittleEndian(w % 0x1_0000, 2)
    ensures LittleEndian(w, 4)[2..] == LittleEndian(w / 0x1_0000, 2)
  {
    var hi := LittleEndian(w / 0x1_0000, 2);
    assert w / 256 / 256 == w / 0x1_0000;
    assert LittleEndian(w / 256, 3) == [w / 256 % 256] + hi;
    assert LittleEndian(w, 4) == [w % 256] + ([w / 256 % 256] + hi);
    var lo := w % 0x1_0000;
    assert lo % 256 == w % 256 && lo / 256 == w / 256 % 256;
    assert LittleEndian(lo, 2) == [lo % 256] + LittleEndian(lo / 256, 1) == [w % 256, w / 256 % 256];
  }

  /** The boot sector fields the code keeps. */
  datatype Geometry = Geometry(spc: nat, reserved: nat, spf: nat, root: nat) {
    /** First sector of the data region; the code assumes two FATs. */
    function Base(): nat { reserved + spf * 2 }

    /** get_lba, in the source's 32-bit arithmetic. */
    function Lba(cluster: nat): nat {
      (reserved + spf * 2 + spc * (cluster - 2)) % WORD32
    }

    /** Cluster c lies on the disk: its sectors have 32-bit numbers. */
    predicate Fits(c: nat) { Base() + spc * c < WORD32 }

    predicate Usable() { spc >= 1 && reserved >= 1 && Base() < WORD32 }
  }

  function BootGeometry(s: Sector): Geometry {
    Geometry(s[0x0d], Le16(s, 0x0e), Le32(s, 0x24), Le32(s, 0x2c))
  }

  /** The fields are where the FAT32 boot sector has them, little-endian. */
  lemma BootLayout(s: Sector, g: Geometry)
    requires g.spc < 256 && g.reserved < 0x1_0000 && g.spf < WORD32 && g.root < WORD32
    requires s[0x0d] == g.spc && s[0x0e..0x10] == LittleEndian(g.reserved, 2)
    requires s[0x24..0x28] == LittleEndian(g.spf, 4) && s[0x2c..0x30] == LittleEndian(g.root, 4)
    ensures BootGeometry(s) == g
  {
    ReadsLe16(s, 0x0e, g.reserved);
    ReadsLe32(s, 0x24, g.spf);
    ReadsLe32(s, 0x2c, g.root);
  }

  /** Where FAT copy f lies, as the FAT32 layout has it: the copies follow the reserved sectors. */
  datatype Extent = Extent(first: int, end: int)

  function FatCopy(s: Sector, f: nat): Extent {
    var reserved, spf := Le16(s, 0x0e), Le32(s, 0x24);
    Extent(reserved + f * spf, reserved + (f + 1) * spf)
  }

  /** Cluster 2 starts right after the second copy of the FAT, and each next cluster starts as many
      sectors further as a cluster has. */
  lemma DataFollowsFats(s: Sector, c: nat)
    requires c >= 2 && FatCopy(s, 1).end + (s[0x0d] as nat) * (c - 1) < WORD32
    ensures var g := BootGeometry(s);
            && FatCopy(s, 0).first == Le16(s, 0x0e) && FatCopy(s, 1).first == FatCopy(s, 0).end
            && g.Lba(2) == FatCopy(s, 1).end
            && g.Lba(c) == FatCopy(s, 1).end + (s[0x0d] as nat) * (c - 2)
            && g.Lba(c + 1) == g.Lba(c) + s[0x0d] as nat
  {
    hide Le16, Le32, Geometry.Lba;
    PlaceOfCluster(BootGeometry(s), c);
  }

  lemma PlaceOfCluster(g: Geometry, c: nat)
    requires c >= 2 && g.reserved + 2 * g.spf + g.spc * (c - 1) < WORD32
    ensures g.Lba(2) == g.reserved + 2 * g.spf
    ensures g.Lba(c) == g.reserved + 2 * g.spf + g.spc * (c - 2) && g.Lba(c + 1) == g.Lba(c) + g.spc
  {
    MulAdd(g.spc, c - 2, 1);
    MulMono(g.spc, 0, c - 2);
  }

  const END_OF_CHAIN := 0x0fff_fff0

  predicate Terminator(c: nat) { c == 0 || c >= END_OF_CHAIN }

  /** The FAT entry on the disk. The code compares all 32 bits. */
  function Entry(g: Geometry, m: Media, c: nat): (next: nat)
    ensures next < WORD32
  {
    Le32(m.At(g.reserved + c / 128), c % 128 * 4)
  }

  /** The first FAT is an array of 32-bit little-endian words after the reserved sectors. */
  lemma FatLayout(g: Geometry, m: Media, c: nat, w: nat)
    requires w < WORD32
    requires var i := c % 128 * 4; m.At(g.reserved + c / 128)[i..i + 4] == LittleEndian(w, 4)
    ensures Entry(g, m, c) == w
  {
    ReadsLe32(m.At(g.reserved + c / 128), c % 128 * 4, w);
  }

  /** A FAT: the link of every cluster. */
  type Fat = nat -> nat

  function FatOf(g: Geometry, m: Media): Fat {
    (c: nat) => Entry(g, m, c)
  }

  // ------------------------------------------------------------- chains

  /** The chain from c is c, c + 1, ..., c + n - 1 and then a terminator. */
  ghost predicate Straight(fat: Fat, c: nat, n: nat) {
    if n == 0 then Terminator(c)
    else
      && (forall d: nat :: c <= d < c + n ==> !Terminator(d))
      && (forall d: nat :: c <= d < c + n - 1 ==> fat(d) == d + 1)
      && Terminator(fat(c + n - 1))
  }

  ghost predicate Gapless(fat: Fat, c: nat) {
    exists n: nat :: Straight(fat, c, n)
  }

  /** Where a chain goes, by the bytes of its first FAT entry: 0 and 0x0ffffff0 upwards end it, a
      successor continues it, anything else is a gap. */
  lemma ChainByLinks(g: Geometry, m: Media, c: nat, d: nat)
    requires 2 <= c < 0x0fff_fff0 && d < WORD32
    requires var i := c % 128 * 4; m.At(g.reserved + c / 128)[i..i + 4] == LittleEndian(d, 4)
    ensures d == 0 || d >= 0x0fff_fff0 ==> Gapless(FatOf(g, m), c)
    ensures 0 < d < 0x0fff_fff0 && d != c + 1 ==> !Gapless(FatOf(g, m), c)
    ensures d == c + 1 < 0x0fff_fff0 ==> (Gapless(FatOf(g, m), c) <==> Gapless(FatOf(g, m), d))
  {
    FatLayout(g, m, c, d);
    var fat := FatOf(g, m);
    if Terminator(d) {
      assert Straight(fat, c, 1);
    } else {
      if n: nat :| Straight(fat, c, n) {
        StraightFirst(fat, c, n);
        assert Straight(fat, d, n - 1);
      }
      if d == c + 1 {
        if n: nat :| Straight(fat, d, n) {
          assert n > 0;
          StraightMore(fat, c, n);
        }
      }
    }
  }

  lemma StraightMore(fat: Fat, c: nat, n: nat)
    requires !Terminator(c) && fat(c) == c + 1 && n > 0 && Straight(fat, c + 1, n)
    ensures Straight(fat, c, n + 1)
  {
  }

  /** No cluster at all. */
  lemma EmptyChain(fat: Fat, c: nat)
    requires c == 0 || c >= 0x0fff_fff0
    ensures Gapless(fat, c)
  {
    assert Straight(fat, c, 0);
  }

  /** The s-th sector met when the chain from c is walked cluster by cluster. */
  function Visit(g: Geometry, fat: Fat, c: nat, s: nat): Option<nat>
    requires g.spc >= 1
    decreases s
  {
    if Terminator(c) then None
    else if s < g.spc then Some((g.Lba(c) + s) % WORD32)
    else Visit(g, fat, fat(c), s - g.spc)
  }

  lemma MulStep(a: nat, n: nat)
    requires n > 0
    ensures a * n == a * (n - 1) + a && a * (n - 1) >= 0
  {
  }

  lemma MulAdd(a: nat, x: int, y: int)
    ensures a * (x + y) == a * x + a * y
  {
  }

  lemma LbaFits(g: Geometry, c: nat)
    requires c >= 2 && g.Fits(c)
    ensures g.Lba(c) == g.Base() + g.spc * (c - 2)
    ensures g.Lba(c) + 2 * g.spc == g.Base() + g.spc * c
  {
    MulAdd(g.spc, c - 2, 2);
  }

  /** The first cluster of a straight chain, and what follows it. */
  lemma StraightFirst(fat: Fat, c: nat, n: nat)
    requires Straight(fat, c, n) && n > 0
    ensures !Terminator(c) && Straight(fat, fat(c), n - 1) && (n > 1 ==> fat(c) == c + 1)
  {
    if n > 1 { assert fat(c) == c + 1; }
  }

  /** One cluster of the walk. */
  lemma VisitStep(g: Geometry, fat: Fat, c: nat, s: nat)
    requires g.spc >= 1 && !Terminator(c) && g.Lba(c) + g.spc < WORD32
    ensures Visit(g, fat, c, s) == if s < g.spc then Some(g.Lba(c) + s) else Visit(g, fat, fat(c), s - g.spc)
  {
  }

  lemma VisitOver(g: Geometry, fat: Fat, c: nat, s: nat)
    requires g.spc >= 1 && Terminator(c)
    ensures Visit(g, fat, c, s) == None
  {
  }

  lemma LbaRoom(g: Geometry, c: nat, top: nat)
    requires g.spc >= 1 && 2 <= c <= top && g.Fits(top)
    ensures g.Lba(c) + g.spc < WORD32
  {
    LbaBelow(g, c, top);
  }

  lemma {:induction false} VisitWithin(g: Geometry, fat: Fat, c: nat, n: nat, lba: nat, len: nat, s: nat)
    requires g.Usable() && Straight(fat, c, n) && n > 0 && c >= 2 && g.Fits(c + n - 1)
    requires lba == g.Lba(c) && len == g.spc * n
    ensures Visit(g, fat, c, s) == if s < len then Some(lba + s) else None
    decreases n
  {
    hide Straight, Visit, Geometry.Lba, Geometry.Fits;
    StraightFirst(fat, c, n);
    LbaRoom(g, c, c + n - 1);
    VisitStep(g, fat, c, s);
    MulStep(g.spc, n);
    if s >= g.spc {
      if n > 1 {
        LbaNext(g, c, c + n - 1);
        VisitWithin(g, fat, c + 1, n - 1, lba + g.spc, len - g.spc, s - g.spc);
      } else {
        VisitOver(g, fat, fat(c), s - g.spc);
      }
    }
  }

  /**
    The fast form is the slow one: on a straight chain of n clusters sector s of the file is at
    lba + s exactly while s is inside the chain; beyond it the walk has ended.
   */
  lemma VisitStraight(g: Geometry, fat: Fat, c: nat, n: nat, s: nat)
    requires g.Usable() && Straight(fat, c, n) && (n > 0 ==> c >= 2 && g.Fits(c + n - 1))
    ensures Visit(g, fat, c, s) == if s < g.spc * n then Some(g.Lba(c) + s) else None
  {
    if n > 0 { VisitWithin(g, fat, c, n, g.Lba(c), g.spc * n, s); }
  }

  lemma LbaNext(g: Geometry, c: nat, top: nat)
    requires g.spc >= 1 && 2 <= c < top && g.Fits(top)
    ensures g.Fits(c + 1) && g.Lba(c + 1) == g.Lba(c) + g.spc
  {
    LbaBelow(g, c, top);
    LbaBelow(g, c + 1, top);
    MulAdd(g.spc, c - 2, 1);
  }

  lemma LbaBelow(g: Geometry, c: nat, top: nat)
    requires g.spc >= 1 && 2 <= c <= top && g.Fits(top)
    ensures g.Lba(c) == g.Base() + g.spc * (c - 2) && g.Fits(c) && g.Lba(c) + g.spc < WORD32
    ensures g.Lba(c) >= g.Base()
  {
    MulMono(g.spc, c, top);
    LbaFits(g, c);
  }

  lemma MulMono(a: nat, x: nat, y: nat)
    requires x <= y
    ensures a * x <= a * y
  {
  }

  /** A chain is straight for one length only. */
  lemma StraightUnique(fat: Fat, c: nat, n: nat, n': nat)
    requires Straight(fat, c, n) && Straight(fat, c, n')
    ensures n == n'
  {
  }

  // ------------------------------------------------------------- the gap check

  /** The cache offset that stands for an empty cache. */
  const SENTINEL := 0xffff_ffff

  /** The clusters start, ..., p are in use and linked one to the next. */
  ghost predicate Linked(fat: Fat, start: nat, p: nat) {
    && (forall d: nat :: start <= d <= p ==> !Terminator(d))
    && (forall d: nat :: start <= d < p ==> fat(d) == d + 1)
  }

  /** The clusters the contiguity check reaches from start lie on the disk: start itself, and the
      successor of every consecutive stretch. */
  ghost predicate WalkFits(g: Geometry, fat: Fat, start: nat) {
    g.Fits(start) &&
    forall p: nat :: start <= p && Linked(fat, start, p) && !Terminator(fat(p)) ==> g.Fits(fat(p))
  }

  /** With clusters of up to 15 sectors that holds whatever the FAT contains. */
  lemma SmallClustersFit(g: Geometry, fat: Fat, start: nat)
    requires g.spc <= 15 && g.Base() <= 0x1000_0000 && start < END_OF_CHAIN
    ensures WalkFits(g, fat, start)
  {
    MulMono(start, g.spc, 15);
    forall p: nat | Linked(fat, start, p) && !Terminator(fat(p)) ensures g.Fits(fat(p)) {
      MulMono(fat(p), g.spc, 15);
    }
  }

  /** The walk of file_has_gaps has met only consecutive sectors, up to those of cluster p, and
      now stands at c; p is start - 1 before the first cluster. */
  ghost predicate Walked(g: Geometry, fat: Fat, start: nat, p: nat, c: nat, lastLba: nat) {
    && start <= p + 1 && Linked(fat, start, p)
    && if p < start then c == start && lastLba == 0
       else c == fat(p) && g.Fits(p) && lastLba == g.Lba(p) + g.spc - 1
  }

  lemma MulPositive(a: nat, b: nat)
    requires a >= 1
    ensures a * b >= b
  {
    MulMono(b, 1, a);
  }

  lemma MulInjective(a: nat, b: nat, c: nat)
    requires a >= 1
    ensures a * b == a * c <==> b == c
  {
    if b < c {
      MulAdd(a, b, c - b);
      MulPositive(a, c - b);
    } else if c < b {
      MulAdd(a, c, b - c);
      MulPositive(a, b - c);
    }
  }

  lemma LbaValue(g: Geometry, c: nat)
    requires g.Usable() && c >= 1 && g.Fits(c)
    ensures var v := g.Base() + g.spc * c - 2 * g.spc;
            g.Lba(c) == (if v >= 0 then v else v + WORD32) && (c >= 2 ==> v >= g.Base())
    ensures g.spc * c >= g.spc
  {
    MulAdd(g.spc, c, -2);
    MulMono(g.spc, 1, c);
    if c >= 2 { MulMono(g.spc, 2, c); }
  }

  /** Two clusters follow each other on the disk exactly when their numbers do. */
  lemma NextSector(g: Geometry, c: nat, d: nat)
    requires g.Usable() && 2 <= c && g.Fits(c) && 1 <= d && g.Fits(d)
    ensures g.Lba(c) + g.spc < WORD32
    ensures g.Lba(c) + g.spc == g.Lba(d) <==> d == c + 1
  {
    LbaValue(g, c);
    LbaValue(g, d);
    MulAdd(g.spc, c, 1);
    MulInjective(g.spc, d, c + 1);
  }

  /** What the check of the cluster at hand finds, and what that means. */
  lemma WalkedOn(g: Geometry, fat: Fat, start: nat, p: nat, c: nat, lastLba: nat)
    requires g.Usable() && WalkFits(g, fat, start) && start >= 2
    requires Walked(g, fat, start, p, c, lastLba) && !Terminator(c)
    ensures g.Fits(c) && (start <= p <==> lastLba > 0)
    ensures start <= p ==> ((lastLba + 1) % WORD32 == g.Lba(c) <==> c == p + 1)
    ensures c == p + 1 ==> lastLba < g.Lba(c) && g.Lba(c) + g.spc < WORD32
  {
    if start <= p {
      assert !Terminator(p);
      LbaValue(g, p);
      NextSector(g, p, c);
    }
    if c == p + 1 {
      NextSector(g, c, c);
      LbaValue(g, c);
    }
  }

  lemma WalkedNext(g: Geometry, fat: Fat, start: nat, p: nat, c: nat, lastLba: nat, last: nat)
    requires Walked(g, fat, start, p, c, lastLba) && c == p + 1 && !Terminator(c) && g.Fits(c)
    requires last == g.Lba(c) + g.spc - 1
    ensures Walked(g, fat, start, c, fat(c), last)
  {
  }

  /** A walk that met a terminator was on a straight chain; one stopped by a gap was on none. */
  lemma WalkDecides(g: Geometry, fat: Fat, start: nat, p: nat, c: nat, lastLba: nat)
    requires Walked(g, fat, start, p, c, lastLba)
    ensures Terminator(c) ==> Straight(fat, start, p + 1 - start)
    ensures !Terminator(c) && c != p + 1 ==> !Gapless(fat, start)
  {
    if !Terminator(c) && c != p + 1 && Gapless(fat, start) {
      var k: nat :| Straight(fat, start, k);
      StraightCannotLeave(fat, start, p, k);
    }
  }

  lemma StraightCannotLeave(fat: Fat, start: nat, p: nat, k: nat)
    requires start <= p && Linked(fat, start, p) && Straight(fat, start, k)
    ensures fat(p) == p + 1 || Terminator(fat(p))
  {
    assert !Terminator(start);
    assert p < start + k;
  }

  lemma SameFatSector(g: Geometry, m: Media, base: nat, i: nat)
    requires base % 128 == 0 && i < 128
    ensures Entry(g, m, base + i) == FatWords(m.At(g.reserved + base / 128))[i]
  {
    assert (base + i) / 128 == base / 128 && (base + i) % 128 == i;
  }

  lemma SectorStart(cluster: nat, offset: nat)
    requires offset % 128 == 0 && offset <= cluster <= offset + 127
    ensures offset == cluster - cluster % 128
  {
  }

  /** A FAT sector as the 128 little-endian words it holds. */
  function FatWords(s: Sector): (ws: seq<nat>)
    ensures |ws| == 128 && forall i :: 0 <= i < 128 ==> ws[i] == Le32(s, i * 4)
  {
    seq(128, i requires 0 <= i < 128 => Le32(s, i * 4))
  }

  /** fat32_t: the layout, and a cache of one FAT sector of 128 entries from fatOffset on. */
  class Reader {
    var media: Media
    var g: Geometry
    var fatOffset: nat
    const fatRec: array<nat>

    /** fat32_t as init_disk needs it: nothing in the cache yet. */
    constructor (media: Media, g: Geometry)
      ensures CacheValid() && this.media == media && this.g == g && fresh(fatRec)
    {
      this.media, this.g, fatOffset := media, g, SENTINEL;
      fatRec := new nat[128];
    }

    ghost predicate CacheValid()
      reads this, fatRec
    {
      && fatRec.Length == 128
      && (fatOffset == SENTINEL ||
          (fatOffset % 128 == 0 && fatOffset < END_OF_CHAIN &&
           fatRec[..] == FatWords(media.At(g.reserved + fatOffset / 128))))
    }

    ghost function TheFat(): Fat
      reads this`media, this`g
    {
      FatOf(g, media)
    }

    /** get_next_cluster: the entry on the disk, through the cache. */
    method GetNextCluster(cluster: nat) returns (next: nat)
      requires CacheValid() && cluster < END_OF_CHAIN
      modifies this`fatOffset, fatRec
      ensures CacheValid() && fatOffset == cluster - cluster % 128
      ensures next == TheFat()(cluster)
    {
      if fatOffset == SENTINEL || cluster < fatOffset || cluster > fatOffset + 127 {
        LoadFatSector(cluster);
      }
      SectorStart(cluster, fatOffset);
      SameFatSector(g, media, fatOffset, cluster % 128);
      next := fatRec[cluster % 128];
    }

    method LoadFatSector(cluster: nat)
      requires fatRec.Length == 128 && cluster < END_OF_CHAIN
      modifies this`fatOffset, fatRec
      ensures CacheValid() && fatOffset == cluster - cluster % 128
    {
      var base := cluster - cluster % 128;
      var words := FatWords(media.At(cluster / 128 + g.reserved));
      forall i | 0 <= i < 128 { fatRec[i] := words[i]; }
      fatOffset := base;
      assert fatRec[..] == words && base / 128 == cluster / 128;
    }

    /** The inner loop of file_has_gaps over the sectors of one cluster. */
    method FollowCluster(lba: nat, lastLba: nat) returns (gap: bool, last: nat)
      requires g.spc >= 1 && lba < WORD32
      requires lastLba == 0 || (lastLba + 1) % WORD32 == lba ==> 0 < lba && lba + g.spc < WORD32
      ensures gap <==> lastLba != 0 && (lastLba + 1) % WORD32 != lba
      ensures !gap ==> last == lba + g.spc - 1
    {
      last := lastLba;
      var i := 0;
      while i < g.spc
        invariant 0 <= i <= g.spc
        invariant i == 0 ==> last == lastLba
        invariant i > 0 ==> last == lba + i - 1 && 0 < lba && lba + g.spc < WORD32
        invariant i > 0 ==> lastLba == 0 || (lastLba + 1) % WORD32 == lba
      {
        if last != 0 && (last + 1) % WORD32 != (lba + i) % WORD32 {
          return true, last;
        }
        last := (lba + i) % WORD32;
        i := i + 1;
      }
      return false, last;
    }

    /** file_has_gaps, exact on every FAT, cyclic ones included; it always returns because the
        last sector number grows with every cluster. */
    method FileHasGaps(start: nat) returns (gaps: bool)
      requires CacheValid() && g.Usable() && start >= 2 && (Terminator(start) || WalkFits(g, TheFat(), start))
      modifies this`fatOffset, fatRec
      ensures CacheValid() && (gaps <==> !Gapless(TheFat(), start))
    {
      ghost var fat, p: nat := TheFat(), start - 1;
      var c: nat, lastLba: nat := start, 0;
      while c < END_OF_CHAIN && c > 0
        invariant CacheValid() && Walked(g, fat, start, p, c, lastLba) && lastLba < WORD32
        decreases WORD32 - lastLba
      {
        WalkedOn(g, fat, start, p, c, lastLba);
        var gap, last := FollowCluster(g.Lba(c), lastLba);
        if gap {
          WalkDecides(g, fat, start, p, c, lastLba);
          return true;
        }
        WalkedNext(g, fat, start, p, c, lastLba, last);
        p, lastLba := c, last;
        c := GetNextCluster(c);
      }
      WalkDecides(g, fat, start, p, c, lastLba);
      assert Straight(fat, start, p + 1 - start);
      return false;
    }
  }
}
