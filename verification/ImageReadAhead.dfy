// The images behind the read-ahead: read_disk_sector and write_disk_sector of fs/fat32.c on top
// of read_sector and write_sector of pico/msc_app.c, in every interleaving with the USB side that
// keeps the rules of module Prefetch.
module ImageReadAhead {
  import opened Bytes
  import opened Fat32
  import opened DiskImages
  import opened DirectMapping
  import opened Prefetch

  // ------------------------------------------------- writes reach the USB disk

  function Stored(d: seq<Sector>, n: nat, x: Sector): (d': seq<Sector>)
    ensures |d'| == |d|
  {
    if n < |d| then d[n := x] else d
  }

  /** d is the disk with every write that has started, also the one under way. */
  ghost predicate Landing(d: seq<Sector>, s: State) {
    match s.pc
    case ClearComplete => d == Stored(s.disk, s.sector, s.data)
    case IssueWrite => d == Stored(s.disk, s.sector, s.data)
    case WaitWrite => d == if Moved(s) then s.disk else Stored(s.disk, s.sector, s.data)
    case _ => d == s.disk
  }

  /** Event e starts a write: a call is made only between calls. */
  predicate Starts(s: State, e: Event) {
    e.StartWrite? && s.pc == Ready
  }

  lemma CoreLands(d: seq<Sector>, s: State)
    requires PcInv(s) && Landing(d, s)
    ensures Landing(d, CoreStep(s))
  {
  }

  lemma MoveLands(d: seq<Sector>, s: State, junk: Sector)
    requires PcInv(s) && Landing(d, s)
    ensures Landing(d, MoveData(s, junk))
  {
  }

  /** No write is lost, repeated or made out of turn. */
  lemma StepLands(d: seq<Sector>, s: State, e: Event)
    requires PcInv(s) && Landing(d, s)
    ensures Landing(if Starts(s, e) then Stored(d, e.sector, e.data) else d, Step(s, e))
  {
    match e
    case Core => CoreLands(d, s);
    case Move(junk) => MoveLands(d, s, junk);
    case _ =>
  }

  // ------------------------------------------------- runs of image accesses

  /** A call of read_disk_sector or write_disk_sector, or a step of either core in between. */
  datatype Action =
    | ReadImage(disk: byte, sector: nat)
    | WriteImage(disk: byte, sector: nat, data: Sector)
    | Go(step: Event)
  {
    predicate Valid() {
      (this.WriteImage? ==> disk < NR_DISKS) && (Go? ==> !step.StartRead? && !step.StartWrite?)
    }
  }

  /** What an action is for the read-ahead: an access beyond the end of an image is none. */
  function EventOf(t: Tables, a: Action): Option<Event>
    requires t.Valid()
  {
    match a
    case ReadImage(i, s) => if Target(t, i, s).Some? then Some(StartRead(Target(t, i, s).value)) else None
    case WriteImage(i, s, x) => if Target(t, i, s).Some? then Some(StartWrite(Target(t, i, s).value, x)) else None
    case Go(e) => Some(e)
  }

  function Act(t: Tables, s: State, a: Action): State
    requires t.Valid()
  {
    var e := EventOf(t, a);
    if e.Some? then Step(s, e.value) else s
  }

  function ActAll(t: Tables, s: State, actions: seq<Action>): State
    requires t.Valid()
    decreases |actions|
  {
    if actions == [] then s else ActAll(t, Act(t, s, actions[0]), actions[1..])
  }

  /** Every action keeps the three rules of the read-ahead where it happens. */
  predicate Keeps(t: Tables, s: State, actions: seq<Action>)
    requires t.Valid()
    decreases |actions|
  {
    actions == [] ||
    (actions[0].Valid() &&
     (var e := EventOf(t, actions[0]); e.Some? ==> Careful(s, e.value)) &&
     Keeps(t, Act(t, s, actions[0]), actions[1..]))
  }

  /** The writes to images that the run asks for. */
  function WriteOf(s: State, a: Action): seq<Write> {
    if a.WriteImage? && s.pc == Ready then [Write(a.disk, a.sector, a.data)] else []
  }

  function ImageWrites(t: Tables, s: State, actions: seq<Action>): seq<Write>
    requires t.Valid()
    decreases |actions|
  {
    if actions == [] then []
    else WriteOf(s, actions[0]) + ImageWrites(t, Act(t, s, actions[0]), actions[1..])
  }

  /** The sectors of the disk as the FAT layer sees them. */
  function MediaOf(d: seq<Sector>): Media {
    Media(map n: nat | n < |d| :: d[n])
  }

  ghost predicate Agrees(d: seq<Sector>, m: Media) {
    forall p :: 0 <= p < |d| ==> d[p] == m.At(p)
  }

  lemma ActKeepsInv(t: Tables, s: State, a: Action)
    requires t.Valid() && PcInv(s) && Fresh(s) && (EventOf(t, a).Some? ==> Careful(s, EventOf(t, a).value))
    ensures PcInv(Act(t, s, a)) && Fresh(Act(t, s, a))
  {
    hide PcInv, CoreStep, MoveData, Target;
    var e := EventOf(t, a);
    if e.Some? {
      if e.value.Core? { CoreKeepsInv(s); } else { UsbKeepsInv(s, e.value); }
    }
  }

  /** The disk that an action asks for. */
  function Wanted(t: Tables, d: seq<Sector>, s: State, a: Action): (d': seq<Sector>)
    requires t.Valid()
    ensures |d'| == |d|
  {
    var e := EventOf(t, a);
    if e.Some? && Starts(s, e.value) then Stored(d, e.value.sector, e.value.data) else d
  }

  lemma AfterOneMore(t: Tables, m: Media, ws: seq<Write>, w: Write)
    requires t.Valid()
    ensures var before, p := AfterWrites(t, m, ws), Target(t, w.disk, w.sector);
            AfterWrites(t, m, ws + [w]) == if p.Some? then before.Set(p.value, w.data) else before
  {
    hide Target;
    assert (ws + [w])[..|ws|] == ws;
  }

  lemma StoredAgrees(d: seq<Sector>, m: Media, n: nat, x: Sector)
    requires Agrees(d, m)
    ensures Agrees(Stored(d, n, x), m.Set(n, x))
  {
  }

  lemma WantedAgrees(t: Tables, m: Media, d: seq<Sector>, s: State, ws: seq<Write>, a: Action)
    requires t.Valid() && a.Valid() && Agrees(d, AfterWrites(t, m, ws))
    ensures Agrees(Wanted(t, d, s, a), AfterWrites(t, m, ws + WriteOf(s, a)))
  {
    hide Target, AfterWrites, Agrees, Stored;
    if a.WriteImage? && s.pc == Ready {
      var p := Target(t, a.disk, a.sector);
      AfterOneMore(t, m, ws, Write(a.disk, a.sector, a.data));
      if p.Some? { StoredAgrees(d, AfterWrites(t, m, ws), p.value, a.data); }
    } else {
      assert ws + [] == ws;
    }
  }

  lemma ActLands(t: Tables, d: seq<Sector>, s: State, a: Action)
    requires t.Valid() && PcInv(s) && Landing(d, s)
    ensures Landing(Wanted(t, d, s, a), Act(t, s, a))
  {
    hide PcInv, Landing, Step, EventOf, Stored;
    var e := EventOf(t, a);
    if e.Some? { StepLands(d, s, e.value); }
  }

  lemma {:induction false} ActionsLand(t: Tables, m: Media, d: seq<Sector>, s: State, ws: seq<Write>,
      actions: seq<Action>)
    returns (d': seq<Sector>)
    requires t.Valid() && PcInv(s) && Fresh(s) && Landing(d, s) && Agrees(d, AfterWrites(t, m, ws))
    requires Keeps(t, s, actions)
    ensures var s' := ActAll(t, s, actions);
            PcInv(s') && Fresh(s') && Landing(d', s') && |d'| == |d|
    ensures Agrees(d', AfterWrites(t, m, ws + ImageWrites(t, s, actions)))
    decreases |actions|
  {
    hide PcInv, Fresh, Landing, Agrees, AfterWrites, Act, EventOf, WriteOf, Wanted;
    if actions == [] {
      assert ws + [] == ws;
      d' := d;
    } else {
      var a, rest := actions[0], actions[1..];
      var s1 := Act(t, s, a);
      ActKeepsInv(t, s, a);
      ActLands(t, d, s, a);
      WantedAgrees(t, m, d, s, ws, a);
      d' := ActionsLand(t, m, Wanted(t, d, s, a), s1, ws + WriteOf(s, a), rest);
      assert ws + WriteOf(s, a) + ImageWrites(t, s1, rest) == ws + ImageWrites(t, s, actions);
    }
  }

  lemma {:induction false} WritesAreOnImages(t: Tables, s: State, actions: seq<Action>)
    requires t.Valid() && Keeps(t, s, actions)
    ensures ImagesOnly(ImageWrites(t, s, actions))
    decreases |actions|
  {
    hide Act, EventOf;
    if actions != [] { WritesAreOnImages(t, Act(t, s, actions[0]), actions[1..]); }
  }

  /** A state between calls, on a USB disk that init_disk accepted and whose files are sound. */
  ghost predicate Serving(s: State, n: nat, t: Tables, bitmap: nat) {
    && s.pc == Ready && PcInv(s) && Fresh(s)
    && t.Valid() && Mounted(MediaOf(s.disk), n, t, bitmap) && SoundFiles(MediaOf(s.disk), n)
  }

  lemma RunLands(s0: State, n: nat, t: Tables, bitmap: nat, actions: seq<Action>) returns (d: seq<Sector>)
    requires Serving(s0, n, t, bitmap) && Keeps(t, s0, actions)
    ensures var s := ActAll(t, s0, actions);
            PcInv(s) && Fresh(s) && Landing(d, s) && |d| == |s0.disk|
    ensures var ws := ImageWrites(t, s0, actions);
            ImagesOnly(ws) && Agrees(d, AfterWrites(t, MediaOf(s0.disk), ws))
    ensures Sound(GeometryOf(MediaOf(s0.disk)), FatIn(MediaOf(s0.disk)), t)
  {
    hide PcInv, Fresh, Mounted, SoundFiles, Sound, ActAll, Keeps, ImageWrites;
    var m := MediaOf(s0.disk);
    assert AfterWrites(t, m, []) == m;
    d := ActionsLand(t, m, s0.disk, s0, [], actions);
    assert [] + ImageWrites(t, s0, actions) == ImageWrites(t, s0, actions);
    WritesAreOnImages(t, s0, actions);
    SoundFilesAreSound(m, n, t, bitmap);
  }

  /**
    With the read-ahead in between, images are still arrays: whenever read_sector is about to
    return sector r of image i, the buffer holds what the run last wrote to that image sector, or
    what it held before; nothing written to other images or other sectors shows.
   */
  lemma ImageReadsSeeLastWrite(s0: State, n: nat, t: Tables, bitmap: nat, actions: seq<Action>, i: nat, r: nat)
    requires Serving(s0, n, t, bitmap) && Keeps(t, s0, actions) && InImage(t, i, r)
    requires var s := ActAll(t, s0, actions);
             s.pc == ReturnRead && Target(t, i, r) == Some(s.sector) && s.sector < |s0.disk|
    ensures var s := ActAll(t, s0, actions);
            s.buff == LastWritten(ImageWrites(t, s0, actions), i, r, s0.disk[s.sector])
  {
    hide Mounted, SoundFiles, Sound, ActAll, Keeps, ImageWrites, AfterWrites, LastWritten, Target, InImage;
    var m, s, ws := MediaOf(s0.disk), ActAll(t, s0, actions), ImageWrites(t, s0, actions);
    var d := RunLands(s0, n, t, bitmap, actions);
    WritesLand(GeometryOf(m), FatIn(m), m, t, ws, i, r);
    assert d == s.disk && Current(s, s.sector, s.buff);
    assert m.At(s.sector) == s0.disk[s.sector];
  }

  /** Sector p holds x, and the write under way goes elsewhere. */
  ghost predicate Spared(s: State, p: nat, x: Sector) {
    p < |s.disk| && s.disk[p] == x && (Writing(s) ==> s.sector != p)
  }

  lemma StepSpares(s: State, e: Event, p: nat, x: Sector)
    requires PcInv(s) && Spared(s, p, x) && (Starts(s, e) ==> e.sector != p)
    ensures Spared(Step(s, e), p, x)
  {
    match e
    case Core => CoreSpares(s, p, x);
    case Move(junk) => MoveSpares(s, junk, p, x);
    case _ =>
  }

  lemma CoreSpares(s: State, p: nat, x: Sector)
    requires PcInv(s) && Spared(s, p, x)
    ensures Spared(CoreStep(s), p, x)
  {
    hide AheadInv, ReadInv, WriteInv;
  }

  lemma MoveSpares(s: State, junk: Sector, p: nat, x: Sector)
    requires PcInv(s) && Spared(s, p, x)
    ensures Spared(MoveData(s, junk), p, x)
  {
  }

  lemma WritesElsewhere(t: Tables, a: Action, p: nat)
    requires t.Valid() && Outside(t, p) && a.Valid()
    ensures var e := EventOf(t, a); e.Some? && e.value.StartWrite? ==> e.value.sector != p
  {
    if a.WriteImage? && Target(t, a.disk, a.sector).Some? {
      assert InImage(t, a.disk, a.sector);
    }
  }

  lemma {:induction false} ActionsSpare(t: Tables, s: State, actions: seq<Action>, p: nat, x: Sector)
    requires t.Valid() && PcInv(s) && Fresh(s) && Keeps(t, s, actions) && Outside(t, p) && Spared(s, p, x)
    ensures Spared(ActAll(t, s, actions), p, x)
    decreases |actions|
  {
    hide PcInv, Fresh, Spared, Outside, Landing, AfterWrites, WriteOf, Agrees, EventOf;
    if actions != [] {
      var a := actions[0];
      var e := EventOf(t, a);
      WritesElsewhere(t, a, p);
      if e.Some? { StepSpares(s, e.value, p, x); }
      ActKeepsInv(t, s, a);
      ActionsSpare(t, Act(t, s, a), actions[1..], p, x);
    }
  }

  /** And a sector of the USB disk that belongs to no image is at every moment as it was: the boot
      sector, the FATs and the directory stay what the mapping was made from. */
  lemma NothingElseChanges(s0: State, n: nat, t: Tables, bitmap: nat, actions: seq<Action>, p: nat)
    requires Serving(s0, n, t, bitmap) && Keeps(t, s0, actions) && Outside(t, p) && p < |s0.disk|
    ensures var s := ActAll(t, s0, actions);
            p < |s.disk| && s.disk[p] == s0.disk[p]
  {
    hide PcInv, Fresh, Mounted, SoundFiles, ActAll, Keeps, Outside;
    ActionsSpare(t, s0, actions, p, s0.disk[p]);
  }
}
