// The disk images served from the FAT32 volume (second half of fs/fat32.c): the root directory
// scan, the selection of usable images, and access to them by direct sector mapping. The layout
// is that of the Microsoft FAT32 File System Specification, version 1.03, section "FAT Directory
// Structure".
module DiskImages {
  import opened Bytes
  import opened Fat32

  const NR_DISKS := 16
  const CFG_DISK: byte := 0xff

  // ---------------------------------------------------------- directory scan

  datatype DirEntry = DirEntry(name: seq<byte>, attr: byte, cluster: nat, size: nat)

  function SlotEntry(s: Sector, k: nat): (e: DirEntry)
    requires k < 16
    ensures |e.name| == 11
  {
    DirEntry(s[32 * k..32 * k + 11], s[32 * k + 11],
             Le16(s, 32 * k + 20) * 0x1_0000 + Le16(s, 32 * k + 26), Le32(s, 32 * k + 28))
  }

  /** A directory entry as FAT32 stores it; a and b are the fields the code does not look at. */
  function EntryBytes(e: DirEntry, a: seq<byte>, b: seq<byte>): (s: seq<byte>)
    requires |e.name| == 11 && |a| == 8 && |b| == 4
    ensures |s| == 32
  {
    e.name + [e.attr] + a + LittleEndian(e.cluster / 0x1_0000, 2) + b + LittleEndian(e.cluster % 0x1_0000, 2)
    + LittleEndian(e.size, 4)
  }

  lemma SlotLayout(s: Sector, k: nat, e: DirEntry, a: seq<byte>, b: seq<byte>)
    requires k < 16 && |e.name| == 11 && e.cluster < WORD32 && e.size < WORD32 && |a| == 8 && |b| == 4
    requires s[32 * k..32 * k + 32] == EntryBytes(e, a, b)
    ensures SlotEntry(s, k) == e
  {
    var t, at := EntryBytes(e, a, b), 32 * k;
    assert t[..11] == e.name && t[11] == e.attr && t[20..22] == LittleEndian(e.cluster / 0x1_0000, 2);
    assert t[26..28] == LittleEndian(e.cluster % 0x1_0000, 2) && t[28..32] == LittleEndian(e.size, 4);
    Subslice(s, at, 0, 11);
    Subslice(s, at, 11, 12);
    Subslice(s, at, 20, 22);
    Subslice(s, at, 26, 28);
    Subslice(s, at, 28, 32);
    assert s[at + 11] == s[at + 11..at + 12][0] == t[11..12][0];
    ReadsLe16(s, at + 20, e.cluster / 0x1_0000);
    ReadsLe16(s, at + 26, e.cluster % 0x1_0000);
    ReadsLe32(s, at + 28, e.size);
  }

  lemma Subslice(s: seq<byte>, at: nat, i: nat, j: nat)
    requires i <= j <= 32 && at + 32 <= |s|
    ensures s[at..at + 32][i..j] == s[at + i..at + j]
  {
    var t := s[at..at + 32];
    forall k | 0 <= k < j - i ensures t[i..j][k] == s[at + i..at + j][k] {
      assert t[i..j][k] == t[i + k] == s[at + (i + k)];
    }
  }

  /** The entries a scan of one sector looks at, from slot k on: it stops at a 00 slot and skips
      deleted slots and long-name slots. */
  function LiveEntries(s: Sector, k: nat): (es: seq<DirEntry>)
    ensures forall e :: e in es ==> |e.name| == 11
    decreases 16 - k
  {
    if k >= 16 || s[32 * k] == 0x00 then []
    else if s[32 * k] == 0xe5 || s[32 * k + 11] == 0x0f then LiveEntries(s, k + 1)
    else [SlotEntry(s, k)] + LiveEntries(s, k + 1)
  }

  const DISK: seq<byte> := [0x44, 0x49, 0x53, 0x4b]
  const DAT: seq<byte> := [0x20, 0x20, 0x20, 0x44, 0x41, 0x54]
  const CONFIG: seq<byte> := [0x43, 0x4f, 0x4e, 0x46, 0x49, 0x47, 0x20, 0x20, 0x42, 0x49, 0x4e]

  predicate Archive(e: DirEntry) { e.attr / 0x20 % 2 == 1 }

  predicate IsDisk(e: DirEntry) {
    |e.name| == 11 && e.name[..4] == DISK && e.name[5..] == DAT && Archive(e)
  }

  predicate IsConfig(e: DirEntry) { e.name == CONFIG && Archive(e) }

  function Index(e: DirEntry): int
    requires IsDisk(e)
  {
    e.name[4] as int - 0x41
  }

  /** Image names run from DISKA to DISKP; others index outside the tables. */
  predicate GoodEntry(e: DirEntry) {
    IsDisk(e) ==> 0 <= Index(e) < NR_DISKS
  }

  predicate GoodEntries(es: seq<DirEntry>) {
    forall e :: e in es ==> GoodEntry(e)
  }

  /** The static tables of fs/fat32.c. */
  datatype Tables = Tables(
    lba: seq<nat>, blocks: seq<nat>, cluster: seq<nat>,
    cfgLba: nat, cfgBlocks: nat, cfgCluster: nat)
  {
    predicate Valid() { |lba| == NR_DISKS && |blocks| == NR_DISKS && |cluster| == NR_DISKS }
  }

  function RecordEntry(g: Geometry, t: Tables, e: DirEntry): (t': Tables)
    requires t.Valid()
    ensures t'.Valid()
  {
    if IsDisk(e) && 0 <= Index(e) < NR_DISKS then
      var n := Index(e);
      t.(lba := t.lba[n := g.Lba(e.cluster)], blocks := t.blocks[n := e.size / 512],
         cluster := t.cluster[n := e.cluster])
    else if IsConfig(e) then
      t.(cfgLba := g.Lba(e.cluster), cfgBlocks := e.size / 512, cfgCluster := e.cluster)
    else t
  }

  function RecordAll(g: Geometry, t: Tables, es: seq<DirEntry>): (t': Tables)
    requires t.Valid()
    ensures t'.Valid()
    decreases |es|
  {
    if es == [] then t else RecordAll(g, RecordEntry(g, t, es[0]), es[1..])
  }

  lemma {:induction false} RecordAllSplits(g: Geometry, t: Tables, a: seq<DirEntry>, b: seq<DirEntry>)
    requires t.Valid()
    ensures RecordAll(g, t, a + b) == RecordAll(g, RecordAll(g, t, a), b)
    decreases |a|
  {
    if a == [] {
      assert a + b == b;
    } else {
      assert (a + b)[1..] == a[1..] + b;
      RecordAllSplits(g, RecordEntry(g, t, a[0]), a[1..], b);
    }
  }

  /** whole is the scan of which es is still to be recorded on top of t. */
  ghost predicate ToRecord(whole: Tables, g: Geometry, t: Tables, es: seq<DirEntry>) {
    t.Valid() && whole == RecordAll(g, t, es)
  }

  lemma RecordPart(whole: Tables, g: Geometry, t: Tables, a: seq<DirEntry>, b: seq<DirEntry>)
    requires ToRecord(whole, g, t, a + b) && GoodEntries(a + b)
    ensures GoodEntries(a) && GoodEntries(b)
    ensures ToRecord(whole, g, RecordAll(g, t, a), b)
  {
    assert forall e :: e in a ==> e in a + b;
    assert forall e :: e in b ==> e in a + b;
    RecordAllSplits(g, t, a, b);
  }

  /** The last entry of a listing that names image i. */
  function LastDisk(es: seq<DirEntry>, i: nat): Option<DirEntry> {
    if es == [] then None
    else
      var e := es[|es| - 1];
      if IsDisk(e) && Index(e) == i then Some(e) else LastDisk(es[..|es| - 1], i)
  }

  /** After a scan each image slot holds what the last entry for it says. */
  lemma {:induction false} LastEntryWins(g: Geometry, t: Tables, es: seq<DirEntry>, i: nat)
    requires t.Valid() && i < NR_DISKS
    ensures var t' := RecordAll(g, t, es);
            match LastDisk(es, i)
            case None => t'.lba[i] == t.lba[i] && t'.blocks[i] == t.blocks[i] && t'.cluster[i] == t.cluster[i]
            case Some(e) => t'.lba[i] == g.Lba(e.cluster) && t'.blocks[i] == e.size / 512 && t'.cluster[i] == e.cluster
    decreases |es|
  {
    if es != [] {
      var init, e := es[..|es| - 1], es[|es| - 1];
      assert es == init + [e];
      RecordAllSplits(g, t, init, [e]);
      LastEntryWins(g, t, init, i);
      var t1 := RecordAll(g, t, init);
      assert RecordAll(g, t1, [e]) == RecordAll(g, RecordEntry(g, t1, e), [e][1..]) == RecordEntry(g, t1, e);
    }
  }

  // ------------------------------------------------------- walking the directory

  function ClusterSectors(g: Geometry, c: nat): (ss: seq<nat>)
    ensures |ss| == g.spc && forall i :: 0 <= i < g.spc ==> ss[i] == (g.Lba(c) + i) % WORD32
  {
    seq(g.spc, i requires 0 <= i < g.spc => (g.Lba(c) + i) % WORD32)
  }

  /** The sectors read_file visits in at most n clusters from c. */
  function WalkSectors(g: Geometry, fat: Fat, c: nat, n: nat): seq<nat>
    decreases n
  {
    if Terminator(c) || n == 0 then [] else ClusterSectors(g, c) + WalkSectors(g, fat, fat(c), n - 1)
  }

  /** The chain from c has at most n clusters. */
  predicate EndsWithin(fat: Fat, c: nat, n: nat)
    decreases n
  {
    Terminator(c) || (n > 0 && EndsWithin(fat, fat(c), n - 1))
  }

  /** Visit is the walk: the s-th sector of one is the s-th of the other. */
  lemma {:induction false} WalkIsVisit(g: Geometry, fat: Fat, c: nat, n: nat, s: nat)
    requires g.spc >= 1 && EndsWithin(fat, c, n)
    ensures var ss := WalkSectors(g, fat, c, n);
            Visit(g, fat, c, s) == if s < |ss| then Some(ss[s]) else None
    decreases n
  {
    if !Terminator(c) && s >= g.spc {
      WalkIsVisit(g, fat, fat(c), n - 1, s - g.spc);
    }
  }

  function EntriesOf(m: Media, ss: seq<nat>): seq<DirEntry>
    decreases |ss|
  {
    if ss == [] then [] else LiveEntries(m.At(ss[0]), 0) + EntriesOf(m, ss[1..])
  }

  // --------------------------------------------- the scan, on the bytes of the disk

  /** The scan looks at slot k of a directory sector: no slot up to it is free for good, and it is
      neither deleted nor part of a long name. */
  ghost predicate LookedAt(s: Sector, k: nat) {
    && k < 16 && (forall j: nat :: j <= k ==> s[32 * j] != 0x00)
    && s[32 * k] != 0xe5 && s[32 * k + 11] != 0x0f
  }

  /** Slots ks are those looked at from slot k on, in order, and es is what they hold. */
  ghost predicate SlotsOf(s: Sector, k: nat, ks: seq<nat>, es: seq<DirEntry>) {
    && |es| == |ks|
    && (forall i, j :: 0 <= i < j < |ks| ==> ks[i] < ks[j])
    && (forall i :: i in ks <==> k <= i && LookedAt(s, i))
    && (forall j :: 0 <= j < |ks| ==> ks[j] < 16 && es[j] == SlotEntry(s, ks[j]))
  }

  lemma NoMoreSlots(s: Sector, k: nat)
    requires k >= 16 || s[32 * k] == 0x00
    ensures SlotsOf(s, k, [], [])
  {
  }

  lemma SkipSlot(s: Sector, k: nat, ks: seq<nat>, es: seq<DirEntry>)
    requires SlotsOf(s, k + 1, ks, es) && !LookedAt(s, k)
    ensures SlotsOf(s, k, ks, es)
  {
    hide LookedAt, SlotEntry;
    forall i ensures i in ks <==> k <= i && LookedAt(s, i) {
      if i == k { assert i !in ks; }
    }
  }

  lemma TakeSlot(s: Sector, k: nat, ks: seq<nat>, es: seq<DirEntry>)
    requires k < 16 && SlotsOf(s, k + 1, ks, es) && LookedAt(s, k)
    ensures SlotsOf(s, k, [k] + ks, [SlotEntry(s, k)] + es)
  {
    hide LookedAt, SlotEntry;
    var ks', es' := [k] + ks, [SlotEntry(s, k)] + es;
    forall i, j | 0 <= i < j < |ks'| ensures ks'[i] < ks'[j] {
      assert ks'[j] == ks[j - 1] && ks[j - 1] in ks;
    }
    forall i ensures i in ks' <==> k <= i && LookedAt(s, i) {
      assert i in ks' <==> i == k || i in ks;
    }
  }

  lemma {:induction false} LiveSlotsFrom(s: Sector, k: nat) returns (ks: seq<nat>)
    requires k <= 16 && forall j: nat :: j < k ==> s[32 * j] != 0x00
    ensures SlotsOf(s, k, ks, LiveEntries(s, k))
    decreases 16 - k
  {
    hide SlotsOf, SlotEntry;
    if k < 16 && s[32 * k] != 0x00 {
      ks := LiveSlotsFrom(s, k + 1);
      if s[32 * k] != 0xe5 && s[32 * k + 11] != 0x0f {
        TakeSlot(s, k, ks, LiveEntries(s, k + 1));
        ks := [k] + ks;
      } else {
        SkipSlot(s, k, ks, LiveEntries(s, k + 1));
      }
    } else {
      ks := [];
      NoMoreSlots(s, k);
    }
  }

  /** The entries of a sector are those of its slots that the scan looks at, in slot order. */
  lemma LiveSlots(s: Sector) returns (ks: seq<nat>)
    ensures SlotsOf(s, 0, ks, LiveEntries(s, 0))
  {
    ks := LiveSlotsFrom(s, 0);
  }

  /** Slot k is looked at and holds an archive file DISKx.DAT, x being the i-th letter. */
  ghost predicate ImageSlot(s: Sector, k: nat, i: nat) {
    && LookedAt(s, k)
    && s[32 * k..32 * k + 4] == [0x44, 0x49, 0x53, 0x4b] && s[32 * k + 4] as int == 0x41 + i
    && s[32 * k + 5..32 * k + 11] == [0x20, 0x20, 0x20, 0x44, 0x41, 0x54]
    && s[32 * k + 11] / 0x20 % 2 == 1
  }

  lemma SlotNames(s: Sector, k: nat, i: nat)
    requires LookedAt(s, k)
    ensures var e := SlotEntry(s, k); ImageSlot(s, k, i) <==> IsDisk(e) && Index(e) == i
  {
    var name := s[32 * k..32 * k + 11];
    assert name[..4] == s[32 * k..32 * k + 4] && name[5..] == s[32 * k + 5..32 * k + 11];
    assert name[4] == s[32 * k + 4];
  }

  lemma {:induction false} LastDiskAt(es: seq<DirEntry>, i: nat) returns (j: int)
    ensures -1 <= j < |es|
    ensures LastDisk(es, i) == if j < 0 then None else Some(es[j])
    ensures j >= 0 ==> IsDisk(es[j]) && Index(es[j]) == i
    ensures forall l :: j < l < |es| ==> !(IsDisk(es[l]) && Index(es[l]) == i)
  {
    if es == [] {
      j := -1;
    } else {
      var e := es[|es| - 1];
      if IsDisk(e) && Index(e) == i { j := |es| - 1; } else { j := LastDiskAt(es[..|es| - 1], i); }
    }
  }

  lemma LastInSector(s: Sector, i: nat) returns (k: int)
    ensures -1 <= k < 16
    ensures LastDisk(LiveEntries(s, 0), i) == if k < 0 then None else Some(SlotEntry(s, k))
    ensures k >= 0 ==> ImageSlot(s, k, i)
    ensures forall l: nat :: k < l ==> !ImageSlot(s, l, i)
  {
    hide IsDisk, Index, LastDisk, LookedAt, SlotEntry, LiveEntries, ImageSlot;
    var es := LiveEntries(s, 0);
    var ks := LiveSlots(s);
    var j := LastDiskAt(es, i);
    k := if j < 0 then -1 else ks[j];
    if j >= 0 { assert ks[j] in ks; SlotNames(s, ks[j], i); }
    assert forall y :: 0 <= y < j ==> ks[y] < ks[j];
    forall l: nat | k < l ensures !ImageSlot(s, l, i) {
      if l in ks {
        var x :| 0 <= x < |ks| && ks[x] == l;
        SlotNames(s, l, i);
      } else {
        NotLookedAt(s, l, i);
      }
    }
  }

  lemma NotLookedAt(s: Sector, k: nat, i: nat)
    requires !LookedAt(s, k)
    ensures !ImageSlot(s, k, i)
  {
  }

  lemma {:induction false} LastDiskSplits(a: seq<DirEntry>, b: seq<DirEntry>, i: nat)
    ensures LastDisk(a + b, i) == if LastDisk(b, i).Some? then LastDisk(b, i) else LastDisk(a, i)
    decreases |b|
  {
    if b == [] {
      assert a + b == a;
    } else {
      var n := |b| - 1;
      assert (a + b)[..|a| + n] == a + b[..n] && (a + b)[|a| + n] == b[n];
      LastDiskSplits(a, b[..n], i);
    }
  }

  /** Slot (p, k) comes before slot (q, l): in an earlier sector, or earlier in the same one. */
  predicate Before(p: int, k: int, q: int, l: int) {
    p < q || (p == q && k < l)
  }

  /**
    The last entry for image i in a listing is the last slot, over the sectors in order, whose
    bytes name that image; there is none if and only if no slot does.
   */
  lemma {:induction false} LastDiskIsLastSlot(m: Media, ss: seq<nat>, i: nat) returns (p: int, k: int)
    ensures -1 <= p < |ss| && (p >= 0 ==> 0 <= k < 16 && ImageSlot(m.At(ss[p]), k, i))
    ensures LastDisk(EntriesOf(m, ss), i) == if p < 0 then None else Some(SlotEntry(m.At(ss[p]), k))
    ensures forall q: nat, l: nat :: q < |ss| && Before(p, k, q, l) ==> !ImageSlot(m.At(ss[q]), l, i)
    decreases |ss|
  {
    hide LastDisk, LiveEntries, ImageSlot;
    if ss == [] {
      p, k := -1, 0;
      assert LastDisk([], i) == None by { NoEntries(i); }
    } else {
      var s, rest := m.At(ss[0]), ss[1..];
      LastDiskSplits(LiveEntries(s, 0), EntriesOf(m, rest), i);
      p, k := LastDiskIsLastSlot(m, rest, i);
      if p >= 0 {
        p := p + 1;
      } else {
        k := LastInSector(s, i);
        p := if k < 0 then -1 else 0;
      }
      forall q: nat, l: nat | q < |ss| && Before(p, k, q, l) ensures !ImageSlot(m.At(ss[q]), l, i) {
        if q > 0 { assert ss[q] == rest[q - 1]; }
      }
    }
  }

  lemma NoEntries(i: nat)
    ensures LastDisk([], i) == None
  {
  }

  // ------------------------------------------------------------- the bitmap

  function Pow2(i: nat): nat { if i == 0 then 1 else 2 * Pow2(i - 1) }

  predicate Bit(b: nat, i: nat)
    decreases i, b
  {
    if i == 0 then b % 2 == 1 else Bit(b / 2, i - 1)
  }

  /** Setting bit i of a word with no bit from i on: the source's b |= 1 << i. */
  lemma {:induction false} SetBit(b: nat, i: nat, j: nat)
    requires b < Pow2(i)
    ensures b + Pow2(i) < Pow2(i + 1)
    ensures Bit(b + Pow2(i), j) <==> j == i || Bit(b, j)
    decreases j
  {
    if i == 0 {
      assert Pow2(0) == 1 && Pow2(1) == 2 && b == 0;
      NoBits(j);
      if j > 0 { assert Bit(1, j) == Bit(0, j - 1); NoBits(j - 1); }
    } else {
      assert (b + Pow2(i)) / 2 == b / 2 + Pow2(i - 1) && (b + Pow2(i)) % 2 == b % 2;
      if j > 0 { SetBit(b / 2, i - 1, j - 1); }
    }
  }

  lemma {:induction false} NoBits(j: nat)
    ensures !Bit(0, j)
  {
    if j > 0 { NoBits(j - 1); }
  }

  lemma {:induction false} Pow2Mono(i: nat, j: nat)
    requires i <= j
    ensures Pow2(i) <= Pow2(j)
  {
    if i < j { Pow2Mono(i, j - 1); }
  }

  // ------------------------------------------------------------- init_disk

  /** A first cluster from 2 on, from which the contiguity check meets no sector beyond 32 bits. */
  ghost predicate Startable(g: Geometry, fat: Fat, c: nat) {
    c >= 2 && WalkFits(g, fat, c)
  }

  /** So are the first clusters of the files that are checked, which are the last of each name. */
  ghost predicate StartsFit(g: Geometry, fat: Fat, es: seq<DirEntry>) {
    && (forall i: nat :: i < NR_DISKS ==> GoodFind(g, fat, LastDisk(es, i)))
    && (LastConfig(es).Some? && LastConfig(es).value.cluster != 0 ==> Startable(g, fat, LastConfig(es).value.cluster))
  }

  /** What init_disk relies on: a usable FAT32 layout, a root chain that ends (within n
      clusters), entries that name images A to P, and files whose checks stay on the disk. */
  ghost predicate Mountable(m: Media, n: nat) {
    var g := BootGeometry(m.At(0));
    && g.Usable() && EndsWithin(FatOf(g, m), g.root, n)
    && GoodEntries(RootEntries(m, n)) && StartsFit(g, FatOf(g, m), RootEntries(m, n))
  }

  function RootEntries(m: Media, n: nat): seq<DirEntry> {
    var g := BootGeometry(m.At(0));
    EntriesOf(m, WalkSectors(g, FatOf(g, m), g.root, n))
  }

  predicate Signed(s: Sector) {
    s[0x1fe] == 0x55 && s[0x1ff] == 0xaa
  }

  /** The entry init_disk accepts for image i: the last one of that name, if its chain is straight. */
  ghost function Accepted(m: Media, n: nat, i: nat): Option<DirEntry> {
    WithoutGaps(FatOf(BootGeometry(m.At(0)), m), LastDisk(RootEntries(m, n), i))
  }

  ghost function WithoutGaps(fat: Fat, found: Option<DirEntry>): Option<DirEntry> {
    if found.Some? && Gapless(fat, found.value.cluster) then found else None
  }

  /** Where clusters start. */
  type Start = nat -> nat

  function StartOf(g: Geometry): Start {
    (c: nat) => g.Lba(c)
  }

  /** The tables hold e for an image, or nothing. */
  predicate Holds(start: Start, e: Option<DirEntry>, lba: nat, blocks: nat, cluster: nat) {
    match e
    case None => lba == 0
    case Some(x) => lba == start(x.cluster) && lba != 0 && blocks == x.size / 512 && cluster == x.cluster
  }

  ghost predicate GoodFind(g: Geometry, fat: Fat, found: Option<DirEntry>) {
    found.Some? ==> Startable(g, fat, found.value.cluster)
  }

  function NoTables(): (t: Tables)
    ensures t.Valid()
  {
    Tables(seq(NR_DISKS, _ => 0), seq(NR_DISKS, _ => 0), seq(NR_DISKS, _ => 0), 0, 0, 0)
  }

  const CONFIG_BIT := 31

  /** The last entry of a listing for CONFIG.BIN. */
  function LastConfig(es: seq<DirEntry>): Option<DirEntry> {
    if es == [] then None
    else if IsConfig(es[|es| - 1]) then Some(es[|es| - 1])
    else LastConfig(es[..|es| - 1])
  }

  lemma {:induction false} LastConfigWins(g: Geometry, t: Tables, es: seq<DirEntry>)
    requires t.Valid()
    ensures var t' := RecordAll(g, t, es);
            match LastConfig(es)
            case None => t'.cfgLba == t.cfgLba && t'.cfgBlocks == t.cfgBlocks && t'.cfgCluster == t.cfgCluster
            case Some(e) => t'.cfgLba == g.Lba(e.cluster) && t'.cfgBlocks == e.size / 512 && t'.cfgCluster == e.cluster
    decreases |es|
  {
    if es != [] {
      var init, e := es[..|es| - 1], es[|es| - 1];
      assert es == init + [e];
      RecordAllSplits(g, t, init, [e]);
      LastConfigWins(g, t, init);
      var t1 := RecordAll(g, t, init);
      assert RecordAll(g, t1, [e]) == RecordAll(g, RecordEntry(g, t1, e), [e][1..]) == RecordEntry(g, t1, e);
      assert IsConfig(e) ==> e.name[0] == 0x43 && !IsDisk(e);
    }
  }

  /** The configuration file, by its bytes: CONFIG.BIN with the archive attribute. */
  lemma ConfigByName(e: DirEntry)
    ensures IsConfig(e) <==>
              e.name == [0x43, 0x4f, 0x4e, 0x46, 0x49, 0x47, 0x20, 0x20, 0x42, 0x49, 0x4e] && e.attr / 0x20 % 2 == 1
  {
  }

  /** The entry the mapping of image j stands on while images below i have been checked. */
  ghost function Standing(fat: Fat, es: seq<DirEntry>, j: nat, i: nat): Option<DirEntry> {
    if j < i then WithoutGaps(fat, LastDisk(es, j)) else LastDisk(es, j)
  }

  /** Every slot stands as it should while images below i have been checked. */
  ghost predicate SlotsHold(start: Start, fat: Fat, es: seq<DirEntry>, t: Tables, i: nat)
    requires t.Valid()
  {
    forall j: nat :: j < NR_DISKS ==> Holds(start, Standing(fat, es, j, i), t.lba[j], t.blocks[j], t.cluster[j])
  }

  predicate BitsMatch(t: Tables, bitmap: nat, i: nat)
    requires t.Valid() && i <= NR_DISKS
  {
    bitmap < Pow2(i) && forall j: nat :: j < i ==> (Bit(bitmap, j) <==> t.lba[j] != 0)
  }

  /** The tables and the bitmap when the images below i have been checked. */
  ghost predicate Checked(start: Start, fat: Fat, es: seq<DirEntry>, t: Tables, bitmap: nat, i: nat) {
    t.Valid() && i <= NR_DISKS && SlotsHold(start, fat, es, t, i) && BitsMatch(t, bitmap, i)
  }

  lemma ScannedIsChecked(g: Geometry, fat: Fat, es: seq<DirEntry>)
    requires g.Usable() && StartsFit(g, fat, es)
    ensures Checked(StartOf(g), fat, es, RecordAll(g, NoTables(), es), 0, 0)
  {
    var t := RecordAll(g, NoTables(), es);
    forall j: nat | j < NR_DISKS
      ensures Holds(StartOf(g), Standing(fat, es, j, 0), t.lba[j], t.blocks[j], t.cluster[j])
    {
      LastEntryWins(g, NoTables(), es, j);
      FoundStarts(g, fat, es, j);
    }
  }

  /** One more check that succeeds sets its own bit and no other. */
  lemma AddBit(b: nat, low: nat, i: nat, good: bool, j: nat)
    requires b < Pow2(low) && low <= i && j <= i
    ensures var b' := b + (if good then Pow2(i) else 0);
            b' < Pow2(i + 1) && (Bit(b', j) <==> if j == i then good else Bit(b, j))
  {
    Pow2Mono(low, i);
    SetBit(b, i, j);
    NoBitFrom(b, low, i);
  }

  lemma AddBits(b: nat, low: nat, i: nat, good: bool, b': nat)
    requires b < Pow2(low) && low <= i && b' == b + (if good then Pow2(i) else 0)
    ensures b' < Pow2(i + 1) && (Bit(b', i) <==> good)
    ensures forall j: nat :: j < low ==> (Bit(b', j) <==> Bit(b, j))
  {
    AddBit(b, low, i, good, i);
    forall j: nat | j < low ensures Bit(b', j) <==> Bit(b, j) {
      AddBit(b, low, i, good, j);
    }
  }

  lemma BitsNext(t: Tables, bitmap: nat, i: nat, t': Tables, bitmap': nat, good: bool)
    requires t.Valid() && t'.Valid() && i < NR_DISKS && BitsMatch(t, bitmap, i)
    requires bitmap' == bitmap + (if good then Pow2(i) else 0)
    requires forall j: nat :: j < i ==> t'.lba[j] == t.lba[j]
    requires t'.lba[i] != 0 <==> good
    ensures BitsMatch(t', bitmap', i + 1)
  {
    AddBits(bitmap, i, i, good, bitmap');
  }

  lemma SlotsNext(start: Start, fat: Fat, es: seq<DirEntry>, t: Tables, i: nat, t': Tables)
    requires t.Valid() && t'.Valid() && i < NR_DISKS && SlotsHold(start, fat, es, t, i)
    requires Holds(start, WithoutGaps(fat, LastDisk(es, i)), t'.lba[i], t'.blocks[i], t'.cluster[i])
    requires forall j: nat :: j < NR_DISKS && j != i ==>
             t'.lba[j] == t.lba[j] && t'.blocks[j] == t.blocks[j] && t'.cluster[j] == t.cluster[j]
    ensures SlotsHold(start, fat, es, t', i + 1)
  {
    forall j: nat | j < NR_DISKS
      ensures Holds(start, Standing(fat, es, j, i + 1), t'.lba[j], t'.blocks[j], t'.cluster[j])
    {
      if j != i { assert Standing(fat, es, j, i + 1) == Standing(fat, es, j, i); }
    }
  }

  /** What init_disk leaves behind: image i is in the bitmap, and mapped, exactly when the scan
      found an entry for it (the last one counts) whose chain is straight. */
  ghost predicate Active(m: Media, n: nat, t: Tables, bitmap: nat) {
    t.Valid() && forall i: nat :: i < NR_DISKS ==> ActiveAt(m, n, t, bitmap, i)
  }

  ghost predicate ActiveAt(m: Media, n: nat, t: Tables, bitmap: nat, i: nat)
    requires t.Valid() && i < NR_DISKS
  {
    && (Bit(bitmap, i) <==> t.lba[i] != 0) && (t.lba[i] != 0 <==> Accepted(m, n, i).Some?)
    && Holds(StartOf(BootGeometry(m.At(0))), Accepted(m, n, i), t.lba[i], t.blocks[i], t.cluster[i])
  }

  ghost predicate ConfigAccepted(m: Media, n: nat) {
    var found := LastConfig(RootEntries(m, n));
    found.Some? && found.value.cluster != 0 && Gapless(FatOf(BootGeometry(m.At(0)), m), found.value.cluster)
  }

  /** What init_disk leaves for the configuration file: its place and size from the last entry of that
      name, its cluster only if the chain is straight too. */
  ghost predicate ConfigKept(m: Media, n: nat, t: Tables) {
    match LastConfig(RootEntries(m, n))
    case None => t.cfgLba == 0 && t.cfgBlocks == 0 && t.cfgCluster == 0
    case Some(e) =>
      && t.cfgLba == BootGeometry(m.At(0)).Lba(e.cluster) && t.cfgBlocks == e.size / 512
      && t.cfgCluster == if ConfigAccepted(m, n) then e.cluster else 0
  }

  /** All images checked: the tables are as promised, whatever became of the configuration. */
  lemma AllChecked(m: Media, n: nat, t: Tables, bitmap: nat, t': Tables, b: nat)
    requires var g := BootGeometry(m.At(0)); Checked(StartOf(g), FatOf(g, m), RootEntries(m, n), t, bitmap, NR_DISKS)
    requires t'.lba == t.lba && t'.blocks == t.blocks && t'.cluster == t.cluster
    requires forall i: nat :: i < NR_DISKS ==> (Bit(b, i) <==> Bit(bitmap, i))
    ensures Active(m, n, t', b)
  {
    forall i: nat | i < NR_DISKS ensures ActiveAt(m, n, t', b, i) {
      AcceptedStands(m, n, t, bitmap, i);
    }
  }

  lemma AcceptedStands(m: Media, n: nat, t: Tables, bitmap: nat, i: nat)
    requires var g := BootGeometry(m.At(0)); Checked(StartOf(g), FatOf(g, m), RootEntries(m, n), t, bitmap, NR_DISKS)
    requires i < NR_DISKS
    ensures ActiveAt(m, n, t, bitmap, i)
  {
    var g := BootGeometry(m.At(0));
    assert Standing(FatOf(g, m), RootEntries(m, n), i, NR_DISKS) == Accepted(m, n, i);
  }

  // ------------------------------------------------------------- direct access

  /** The sector of the USB disk behind a sector of an image, by the direct mapping. */
  function Target(t: Tables, disk: byte, sector: nat): Option<nat>
    requires t.Valid()
  {
    if disk == CFG_DISK && t.cfgLba > 0 && sector < t.cfgBlocks then Some((t.cfgLba + sector) % WORD32)
    else if disk < NR_DISKS && t.lba[disk] > 0 && sector < t.blocks[disk] then Some((t.lba[disk] + sector) % WORD32)
    else None
  }

  function DiskBlocks(t: Tables, disk: byte): nat
    requires t.Valid()
  {
    if disk == CFG_DISK then t.cfgBlocks
    else if disk < NR_DISKS && t.lba[disk] != 0 then t.blocks[disk]
    else 0
  }

  class Images {
    var media: Media
    var diskBitmap: nat
    const diskCluster: array<nat>
    const diskLba: array<nat>
    const diskBlocks: array<nat>
    var cfgLba: nat
    var cfgBlocks: nat
    var cfgCluster: nat

    ghost predicate Valid()
      reads this
    {
      && diskCluster.Length == NR_DISKS && diskLba.Length == NR_DISKS && diskBlocks.Length == NR_DISKS
      && diskCluster != diskLba && diskCluster != diskBlocks && diskLba != diskBlocks
    }

    ghost function T(): (t: Tables)
      reads this, diskCluster, diskLba, diskBlocks
      requires Valid()
      ensures t.Valid()
    {
      Tables(diskLba[..], diskBlocks[..], diskCluster[..], cfgLba, cfgBlocks, cfgCluster)
    }

    constructor (media: Media)
      ensures Valid() && this.media == media && diskBitmap == 0
      ensures T() == NoTables()
      ensures fresh(diskCluster) && fresh(diskLba) && fresh(diskBlocks)
    {
      this.media := media;
      diskBitmap, cfgLba, cfgBlocks, cfgCluster := 0, 0, 0, 0;
      diskCluster := new nat[NR_DISKS](_ => 0);
      diskLba := new nat[NR_DISKS](_ => 0);
      diskBlocks := new nat[NR_DISKS](_ => 0);
    }

    method Record(g: Geometry, e: DirEntry)
      requires Valid() && GoodEntry(e)
      modifies this`cfgLba, this`cfgBlocks, this`cfgCluster, diskCluster, diskLba, diskBlocks
      ensures Valid() && T() == RecordEntry(g, old(T()), e)
    {
      if IsDisk(e) {
        var n := Index(e);
        diskLba[n] := g.Lba(e.cluster);
        diskBlocks[n] := e.size / 512;
        diskCluster[n] := e.cluster;
      }
      if IsConfig(e) {
        cfgLba, cfgBlocks, cfgCluster := g.Lba(e.cluster), e.size / 512, e.cluster;
      }
    }

    /** process_dir_sector. */
    method ProcessDirSector(g: Geometry, buff: Sector)
      requires Valid() && GoodEntries(LiveEntries(buff, 0))
      modifies this`cfgLba, this`cfgBlocks, this`cfgCluster, diskCluster, diskLba, diskBlocks
      ensures Valid() && T() == RecordAll(g, old(T()), LiveEntries(buff, 0))
    {
      ghost var whole := RecordAll(g, T(), LiveEntries(buff, 0));
      var i := 0;
      while i < 16
        invariant 0 <= i <= 16 && Valid() && GoodEntries(LiveEntries(buff, i))
        invariant whole == RecordAll(g, T(), LiveEntries(buff, i))
      {
        if buff[32 * i] == 0x00 { break; }
        if buff[32 * i] != 0xe5 && buff[32 * i + 11] != 0x0f {
          ghost var es := LiveEntries(buff, i);
          assert es[0] == SlotEntry(buff, i) && es[1..] == LiveEntries(buff, i + 1);
          Record(g, SlotEntry(buff, i));
        }
        i := i + 1;
      }
    }

    /** One read_sector and its callback, the first of the sectors still to come. */
    method ReadDirSector(g: Geometry, sector: nat, ghost whole: Tables, ghost left: seq<nat>)
      requires Valid() && left != [] && sector == left[0]
      requires GoodEntries(EntriesOf(media, left)) && ToRecord(whole, g, T(), EntriesOf(media, left))
      modifies this`cfgLba, this`cfgBlocks, this`cfgCluster, diskCluster, diskLba, diskBlocks
      ensures Valid() && GoodEntries(EntriesOf(media, left[1..]))
      ensures ToRecord(whole, g, T(), EntriesOf(media, left[1..]))
    {
      var buff := media.At(sector);
      RecordPart(whole, g, T(), LiveEntries(buff, 0), EntriesOf(media, left[1..]));
      ProcessDirSector(g, buff);
    }

    /** The inner loop of read_file over one directory cluster. */
    method ReadCluster(g: Geometry, c: nat)
      requires Valid() && GoodEntries(EntriesOf(media, ClusterSectors(g, c)))
      modifies this`cfgLba, this`cfgBlocks, this`cfgCluster, diskCluster, diskLba, diskBlocks
      ensures Valid() && T() == RecordAll(g, old(T()), EntriesOf(media, ClusterSectors(g, c)))
    {
      hide LiveEntries, GoodEntries;
      ghost var ss, left := ClusterSectors(g, c), ClusterSectors(g, c);
      ghost var whole := RecordAll(g, T(), EntriesOf(media, ss));
      var lba := g.Lba(c);
      var i := 0;
      while i < g.spc
        invariant 0 <= i <= g.spc && left == ss[i..]
        invariant Valid() && GoodEntries(EntriesOf(media, left)) && ToRecord(whole, g, T(), EntriesOf(media, left))
      {
        ReadDirSector(g, (lba + i) % WORD32, whole, left);
        left := left[1..];
        i := i + 1;
      }
      assert left == [];
    }

    /** read_file over the root directory. */
    method ReadRoot(fat: Reader, ghost n: nat)
      requires Valid() && fat.CacheValid() && fat.media == media && EndsWithin(fat.TheFat(), fat.g.root, n)
      requires fat.fatRec !in {diskCluster, diskLba, diskBlocks}
      requires GoodEntries(EntriesOf(media, WalkSectors(fat.g, fat.TheFat(), fat.g.root, n)))
      modifies this`cfgLba, this`cfgBlocks, this`cfgCluster, diskCluster, diskLba, diskBlocks
      modifies fat`fatOffset, fat.fatRec
      ensures Valid() && fat.CacheValid()
      ensures T() == RecordAll(fat.g, old(T()), EntriesOf(media, WalkSectors(fat.g, fat.TheFat(), fat.g.root, n)))
    {
      ghost var g, links, left: nat := fat.g, fat.TheFat(), n;
      ghost var whole := RecordAll(g, T(), EntriesOf(media, WalkSectors(g, links, g.root, n)));
      var c: nat := fat.g.root;
      while c < END_OF_CHAIN && c > 0
        invariant Valid() && fat.CacheValid() && EndsWithin(links, c, left)
        invariant GoodEntries(EntriesOf(media, WalkSectors(g, links, c, left)))
        invariant ToRecord(whole, g, T(), EntriesOf(media, WalkSectors(g, links, c, left)))
        decreases left
      {
        assert left > 0;
        ghost var here, rest := ClusterSectors(g, c), WalkSectors(g, links, links(c), left - 1);
        EntriesSplit(media, here, rest);
        RecordPart(whole, g, T(), EntriesOf(media, here), EntriesOf(media, rest));
        ReadCluster(fat.g, c);
        c := fat.GetNextCluster(c);
        left := left - 1;
      }
    }

    /** The contiguity check of image i, for which the scan found an entry or none. */
    method CheckDisk(fat: Reader, i: nat, ghost found: Option<DirEntry>)
      requires Valid() && i < NR_DISKS && Opened(fat) && fat.g.Usable() && GoodFind(fat.g, fat.TheFat(), found)
      requires Holds(StartOf(fat.g), found, diskLba[i], diskBlocks[i], diskCluster[i])
      modifies this`diskBitmap, diskCluster, diskLba, fat`fatOffset, fat.fatRec
      ensures Valid() && Opened(fat)
      ensures var e := WithoutGaps(fat.TheFat(), found);
              && diskBitmap == old(diskBitmap) + (if e.Some? then Pow2(i) else 0)
              && Holds(StartOf(fat.g), e, diskLba[i], diskBlocks[i], diskCluster[i])
      ensures forall j :: 0 <= j < NR_DISKS && j != i ==>
                diskLba[j] == old(diskLba[j]) && diskCluster[j] == old(diskCluster[j])
    {
      if diskLba[i] != 0 {
        var gaps := fat.FileHasGaps(diskCluster[i]);
        if gaps {
          diskLba[i] := 0;
          diskCluster[i] := 0;
        } else {
          diskBitmap := diskBitmap + Pow2(i);
        }
      }
    }

    ghost predicate Opened(fat: Reader)
      reads this`media, fat, fat.fatRec
    {
      && fat.CacheValid() && fat.media == media && fat.g == BootGeometry(media.At(0))
      && fat.fatRec !in {diskCluster, diskLba, diskBlocks}
    }

    /** The loop of init_disk over the sixteen images. */
    method CheckDisks(fat: Reader, ghost es: seq<DirEntry>)
      requires Valid() && Opened(fat) && fat.g.Usable() && StartsFit(fat.g, fat.TheFat(), es)
      requires Checked(StartOf(fat.g), fat.TheFat(), es, T(), diskBitmap, 0)
      modifies this`diskBitmap, diskCluster, diskLba, fat`fatOffset, fat.fatRec
      ensures Valid() && Opened(fat) && Checked(StartOf(fat.g), fat.TheFat(), es, T(), diskBitmap, NR_DISKS)
    {
      hide Bit, Pow2, LastDisk, Startable, BitsMatch, WithoutGaps, StartsFit;
      ghost var g, links := fat.g, fat.TheFat();
      var i := 0;
      while i < NR_DISKS
        invariant 0 <= i <= NR_DISKS && Valid() && Opened(fat)
        invariant Checked(StartOf(g), links, es, T(), diskBitmap, i)
      {
        ghost var t, b := T(), diskBitmap;
        FoundStarts(g, links, es, i);
        assert Standing(links, es, i, i) == LastDisk(es, i);
        CheckDisk(fat, i, LastDisk(es, i));
        BitsNext(t, b, i, T(), diskBitmap, WithoutGaps(links, LastDisk(es, i)).Some?);
        SlotsNext(StartOf(g), links, es, t, i, T());
        i := i + 1;
      }
    }

    /** The check of CONFIG.BIN. */
    method CheckConfig(fat: Reader)
      requires Valid() && Opened(fat) && fat.g.Usable()
      requires cfgCluster == 0 || Startable(fat.g, fat.TheFat(), cfgCluster)
      modifies this`diskBitmap, this`cfgCluster, fat`fatOffset, fat.fatRec
      ensures Valid() && Opened(fat)
      ensures var good := old(cfgCluster) != 0 && Gapless(fat.TheFat(), old(cfgCluster));
              && diskBitmap == old(diskBitmap) + (if good then Pow2(CONFIG_BIT) else 0)
              && cfgCluster == if good then old(cfgCluster) else 0
    {
      if cfgCluster != 0 {
        var gaps := fat.FileHasGaps(cfgCluster);
        if gaps {
          cfgCluster := 0;
        } else {
          diskBitmap := diskBitmap + Pow2(CONFIG_BIT);
        }
      }
    }

    /** The part of init_disk that follows a good boot sector. */
    method MountWith(fat: Reader, ghost n: nat)
      requires Valid() && Opened(fat) && T() == NoTables() && diskBitmap == 0 && Mountable(media, n)
      modifies this`diskBitmap, this`cfgLba, this`cfgBlocks, this`cfgCluster, diskCluster, diskLba, diskBlocks
      modifies fat`fatOffset, fat.fatRec
      ensures Valid() && Active(media, n, T(), diskBitmap)
      ensures (Bit(diskBitmap, CONFIG_BIT) <==> ConfigAccepted(media, n)) && ConfigKept(media, n, T())
    {
      hide RecordAll, EntriesOf, WalkSectors, SlotsHold, Startable, GoodEntries, Bit, Pow2, LastConfig, LastDisk;
      ghost var es, g := RootEntries(media, n), fat.g;
      ReadRoot(fat, n);
      ScannedIsChecked(g, fat.TheFat(), es);
      LastConfigWins(g, NoTables(), es);
      CheckDisks(fat, es);
      ghost var t, b := T(), diskBitmap;
      CheckConfig(fat);
      AddBits(b, NR_DISKS, CONFIG_BIT, ConfigAccepted(media, n), diskBitmap);
      AllChecked(media, n, t, b, T(), diskBitmap);
    }

    /** init_disk, on cleared tables. */
    method InitDisk(ghost n: nat) returns (r: nat)
      requires Valid() && T() == NoTables()
      requires Signed(media.At(0)) ==> Mountable(media, n)
      modifies this`diskBitmap, this`cfgLba, this`cfgBlocks, this`cfgCluster, diskCluster, diskLba, diskBlocks
      ensures Valid() && r == (if media.At(0)[0x1fe] == 0x55 && media.At(0)[0x1ff] == 0xaa then 0 else 1)
      ensures r == 1 ==> diskBitmap == 0 && T() == NoTables()
      ensures r == 0 ==> Active(media, n, T(), diskBitmap)
      ensures r == 0 ==> (Bit(diskBitmap, 31) <==> ConfigAccepted(media, n)) && ConfigKept(media, n, T())
    {
      diskBitmap := 0;
      var boot := media.At(0);
      if !Signed(boot) { return 1; }
      var fat := new Reader(media, BootGeometry(boot));
      MountWith(fat, n);
      return 0;
    }

    /** get_disk_blocks; the source indexes its tables with 16 too, which is outside them. */
    method GetDiskBlocks(disk: byte) returns (n: nat)
      requires Valid() && disk != NR_DISKS
      ensures n == DiskBlocks(T(), disk)
    {
      if disk == CFG_DISK { return cfgBlocks; }
      if disk < NR_DISKS && diskLba[disk] != 0 { return diskBlocks[disk]; }
      return 0;
    }

    /** read_disk_sector: data, or None for the source's -1. */
    method ReadDiskSector(disk: byte, sector: nat) returns (x: Option<Sector>)
      requires Valid() && disk != NR_DISKS
      ensures var p := Target(T(), disk, sector);
              x == if p.Some? then Some(media.At(p.value)) else None
    {
      x := None;
      if disk == CFG_DISK && cfgLba > 0 && sector < cfgBlocks {
        x := Some(media.At((cfgLba + sector) % WORD32));
      } else if disk < NR_DISKS && diskLba[disk] > 0 && sector < diskBlocks[disk] {
        x := Some(media.At((diskLba[disk] + sector) % WORD32));
      }
    }

    /** write_disk_sector: whether it wrote. */
    method WriteDiskSector(disk: byte, sector: nat, x: Sector) returns (ok: bool)
      requires Valid() && disk != NR_DISKS
      modifies this`media
      ensures Valid() && T() == old(T())
      ensures var p := Target(T(), disk, sector);
              ok == p.Some? && media == if ok then old(media).Set(p.value, x) else old(media)
    {
      ok := false;
      if disk == CFG_DISK && cfgLba > 0 && sector < cfgBlocks {
        media, ok := media.Set((cfgLba + sector) % WORD32, x), true;
      } else if disk < NR_DISKS && diskLba[disk] > 0 && sector < diskBlocks[disk] {
        media, ok := media.Set((diskLba[disk] + sector) % WORD32, x), true;
      }
    }
  }

  /** An entry the scan found starts on the disk, at a sector that is not 0. */
  lemma FoundStarts(g: Geometry, fat: Fat, es: seq<DirEntry>, i: nat)
    requires g.Usable() && StartsFit(g, fat, es) && i < NR_DISKS
    ensures GoodFind(g, fat, LastDisk(es, i))
    ensures LastDisk(es, i).Some? ==> g.Lba(LastDisk(es, i).value.cluster) != 0
  {
    assert GoodFind(g, fat, LastDisk(es, i));
    if LastDisk(es, i).Some? {
      LbaValue(g, LastDisk(es, i).value.cluster);
    }
  }

  lemma {:induction false} NoBitFrom(b: nat, i: nat, j: nat)
    requires b < Pow2(i) && i <= j
    ensures !Bit(b, j)
    decreases j
  {
    if i == 0 {
      NoBits(j);
    } else if j > 0 {
      NoBitFrom(b / 2, i - 1, j - 1);
    }
  }

  lemma {:induction false} EntriesSplit(m: Media, a: seq<nat>, b: seq<nat>)
    ensures EntriesOf(m, a + b) == EntriesOf(m, a) + EntriesOf(m, b)
    decreases |a|
  {
    if a == [] {
      assert a + b == b;
    } else {
      assert (a + b)[1..] == a[1..] + b;
      EntriesSplit(m, a[1..], b);
    }
  }
}
