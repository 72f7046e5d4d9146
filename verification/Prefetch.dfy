// The one-sector read-ahead of pico/msc_app.c. read_sector and write_sector run on one core of
// the device; USB transfers and the completion callback run on the other. Every access to a
// shared flag is one atomic step, and a run interleaves the steps of both in any order.
module Prefetch {
  import opened Bytes

  datatype Place = Caller | Ahead

  datatype Command = ReadCmd(sector: nat, into: Place) | WriteCmd(sector: nat, data: Sector)

  /** A command in flight; status once its data has moved: 0 passed, 1 failed. */
  datatype Flight = Flight(command: Command, status: Option<nat>)

  /** The callback after some of its three stores: complete, prefetching_complete, result. */
  datatype Callback = Callback(stores: nat, status: nat)

  datatype Pc =
    | Ready
    | WaitPrefetch | Decide | IssueRead | WaitRead | SetLba | ClearFlag | IssuePrefetch | ReturnRead
    | ClearComplete | IssueWrite | WaitWrite | ReturnWrite

  /** What one read_sector call returned, and what the sector held at that moment. */
  datatype Outcome = Outcome(sector: nat, status: nat, got: Sector, held: Option<Sector>)

  datatype State = State(
    disk: seq<Sector>,
    complete: bool, prefetchingComplete: bool, result: nat, lba: int,
    prefetchBuff: Sector, buff: Sector,
    pc: Pc, sector: nat, data: Sector,
    cmd: Option<Flight>, cb: Option<Callback>,
    outcomes: seq<Outcome>)

  datatype Event =
    | StartRead(sector: nat)
    | StartWrite(sector: nat, data: Sector)
    | Core
    | Move(junk: Sector)
    | Begin
    | Store

  predicate Initial(s: State) {
    && s.complete && s.prefetchingComplete && s.result == 0 && s.lba == -1
    && s.pc == Ready && s.cmd == None && s.cb == None && s.outcomes == []
  }

  // ------------------------------------------------------------------ steps

  function Return(s: State, status: nat): State {
    var held := if s.sector < |s.disk| then Some(s.disk[s.sector]) else None;
    s.(pc := Ready, outcomes := s.outcomes + [Outcome(s.sector, status, s.buff, held)])
  }

  /** Issuing a command succeeds when none is in flight. */
  function Issue(s: State, c: Command, next: Pc): State {
    s.(cmd := Some(Flight(c, None)), pc := next)
  }

  /** The next step of read_sector or write_sector. */
  function CoreStep(s: State): State {
    match s.pc
    case Ready => s
    case WaitPrefetch => if s.prefetchingComplete then s.(pc := Decide) else s
    case Decide =>
      if s.lba == s.sector && s.result == 0 then s.(buff := s.prefetchBuff, pc := SetLba)
      else s.(complete := false, pc := IssueRead)
    case IssueRead => if s.cmd.None? then Issue(s, ReadCmd(s.sector, Caller), WaitRead) else Return(s, 1)
    case WaitRead => if s.complete then s.(pc := SetLba) else s
    case SetLba => s.(lba := s.sector + 1, pc := ClearFlag)
    case ClearFlag => s.(prefetchingComplete := false, pc := IssuePrefetch)
    case IssuePrefetch => if s.cmd.None? then Issue(s, ReadCmd(s.sector + 1, Ahead), ReturnRead) else Return(s, 1)
    case ReturnRead => Return(s, s.result)
    case ClearComplete => s.(complete := false, pc := IssueWrite)
    case IssueWrite => if s.cmd.None? then Issue(s, WriteCmd(s.sector, s.data), WaitWrite) else s.(pc := Ready)
    case WaitWrite => if s.complete then s.(pc := ReturnWrite) else s
    case ReturnWrite => s.(pc := Ready)
  }

  /** The data of the command in flight moves: in-range commands pass, others fail, leaving
      anything in the buffer. */
  function MoveData(s: State, junk: Sector): State {
    if s.cmd.None? || s.cmd.value.status.Some? then s
    else
      var c := s.cmd.value.command;
      var ok := c.sector < |s.disk|;
      var s1 := s.(cmd := Some(Flight(c, Some(if ok then 0 else 1))));
      match c
      case ReadCmd(n, into) =>
        var x := if ok then s.disk[n] else junk;
        if into == Caller then s1.(buff := x) else s1.(prefetchBuff := x)
      case WriteCmd(n, x) => if ok then s1.(disk := s.disk[n := x]) else s1
  }

  function BeginCallback(s: State): State {
    if s.cmd.Some? && s.cmd.value.status.Some? && s.cb.None? then
      s.(cmd := None, cb := Some(Callback(0, s.cmd.value.status.value)))
    else s
  }

  /** The next store of msc_fat_complete_cb. */
  function StoreStep(s: State): State {
    if s.cb.None? then s
    else
      var c := s.cb.value;
      if c.stores == 0 then s.(complete := true, cb := Some(c.(stores := 1)))
      else if c.stores == 1 then s.(prefetchingComplete := true, cb := Some(c.(stores := 2)))
      else s.(result := c.status, cb := None)
  }

  function Step(s: State, e: Event): State {
    match e
    case StartRead(n) => if s.pc == Ready then s.(pc := WaitPrefetch, sector := n) else s
    case StartWrite(n, x) => if s.pc == Ready then s.(pc := ClearComplete, sector := n, data := x) else s
    case Core => CoreStep(s)
    case Move(junk) => MoveData(s, junk)
    case Begin => BeginCallback(s)
    case Store => StoreStep(s)
  }

  function Run(s: State, es: seq<Event>): State
    decreases |es|
  {
    if es == [] then s else Run(Step(s, es[0]), es[1..])
  }

  // ------------------------------------------------------------- assumptions

  /** A write starts when the read-ahead is over: its flag is set, or the callback has made its first
      store and is about to set it. */
  predicate WriteWaits(s: State, e: Event) {
    e.StartWrite? && s.pc == Ready ==> s.prefetchingComplete || (s.cmd.None? && s.cb.Some? && s.cb.value.stores >= 1)
  }

  /** The write of x to n would change the sector that was read ahead. */
  predicate HitsAhead(s: State, n: nat, x: Sector) {
    s.lba == n < |s.disk| && s.disk[n] != x
  }

  /** Writes do not change the sector read ahead. */
  predicate WriteMissesAhead(s: State, e: Event) {
    e.StartWrite? && s.pc == Ready ==> !HitsAhead(s, e.sector, e.data)
  }

  /** read_sector is not about to clear prefetching_complete between the callback's store to
      complete and its store to prefetching_complete. */
  predicate NoLostFlag(s: State, e: Event) {
    e.Core? && s.pc == ClearFlag ==> s.cb.None? || s.cb.value.stores != 1
  }

  predicate Careful(s: State, e: Event) {
    WriteWaits(s, e) && WriteMissesAhead(s, e) && NoLostFlag(s, e)
  }

  /** Every event of the run is allowed where it happens. */
  predicate Obeys(s: State, es: seq<Event>, allowed: (State, Event) -> bool)
    decreases |es|
  {
    es == [] || (allowed(s, es[0]) && Obeys(Step(s, es[0]), es[1..], allowed))
  }

  // --------------------------------------------------------------- invariant

  /** In range, x is what the disk holds at n. */
  predicate Current(s: State, n: int, x: Sector) {
    0 <= n < |s.disk| ==> x == s.disk[n]
  }

  /** No command in flight, and no callback that has yet to set complete. */
  predicate Quiet(s: State) {
    s.cmd.None? && (s.cb.Some? ==> 1 <= s.cb.value.stores <= 2)
  }

  /** The command c, or its callback before the store to the flag that is waited for. */
  predicate Underway(s: State, c: Command, before: nat) {
    if s.cmd.Some? then s.cmd.value.command == c && (s.cb.Some? ==> before < s.cb.value.stores <= 2)
    else s.cb.Some? && s.cb.value.stores <= before
  }

  predicate Moved(s: State) { s.cmd.None? || s.cmd.value.status.Some? }

  predicate ReadInv(s: State) {
    && (if s.complete then Quiet(s) else Underway(s, ReadCmd(s.sector, Caller), 0))
    && (Moved(s) ==> Current(s, s.sector, s.buff))
  }

  /** prefetching_complete is set, or the callback is about to set it. */
  predicate Flagged(s: State) {
    s.prefetchingComplete || (s.lba >= 0 && s.cb.Some? && s.cb.value.stores == 1)
  }

  predicate WriteInv(s: State) {
    && (if s.complete then Quiet(s) else Underway(s, WriteCmd(s.sector, s.data), 0))
    && Current(s, s.lba, s.prefetchBuff) && !HitsAhead(s, s.sector, s.data)
  }

  /** Between calls the prefetch is outstanding or done. */
  predicate AheadInv(s: State) {
    if s.prefetchingComplete then Quiet(s) && Current(s, s.lba, s.prefetchBuff)
    else s.lba >= 0 && Underway(s, ReadCmd(s.lba, Ahead), 1) && (Moved(s) ==> Current(s, s.lba, s.prefetchBuff))
  }

  predicate PcInv(s: State) {
    match s.pc
    case Ready => AheadInv(s)
    case WaitPrefetch => AheadInv(s)
    case Decide => s.prefetchingComplete && AheadInv(s)
    case IssueRead => s.prefetchingComplete && !s.complete && Quiet(s)
    case WaitRead => s.prefetchingComplete && ReadInv(s)
    case SetLba => s.prefetchingComplete && Quiet(s) && Current(s, s.sector, s.buff)
    case ClearFlag => s.prefetchingComplete && Quiet(s) && Current(s, s.sector, s.buff) && s.lba == s.sector + 1
    case IssuePrefetch =>
      && !s.prefetchingComplete && s.cmd.None? && (s.cb.Some? ==> s.cb.value.stores == 2)
      && Current(s, s.sector, s.buff) && s.lba == s.sector + 1
    case ReturnRead => AheadInv(s) && Current(s, s.sector, s.buff) && s.lba == s.sector + 1
    case ClearComplete => Flagged(s) && Quiet(s) && AheadInv(s) && !HitsAhead(s, s.sector, s.data)
    case IssueWrite => Flagged(s) && Quiet(s) && !s.complete && AheadInv(s) && !HitsAhead(s, s.sector, s.data)
    case WaitWrite => Flagged(s) && WriteInv(s)
    case ReturnWrite => Flagged(s) && Quiet(s) && AheadInv(s)
  }

  /** Every read of a sector that exists has returned what the sector held. */
  predicate Fresh(s: State) {
    forall o :: o in s.outcomes && o.held.Some? ==> o.got == o.held.value
  }

  predicate Writing(s: State) { s.pc in {ClearComplete, IssueWrite, WaitWrite, ReturnWrite} }

  predicate Arriving(s: State) { s.pc in {WaitPrefetch, Decide, IssueRead, WaitRead} }

  lemma ReadStepKeepsInv(s: State)
    requires PcInv(s) && Arriving(s)
    ensures PcInv(CoreStep(s))
  {
  }

  lemma AheadStepKeepsInv(s: State)
    requires PcInv(s) && NoLostFlag(s, Core) && !Arriving(s) && !Writing(s)
    ensures PcInv(CoreStep(s))
  {
  }

  lemma WriteStepKeepsInv(s: State)
    requires PcInv(s) && Writing(s)
    ensures PcInv(CoreStep(s)) && CoreStep(s).outcomes == s.outcomes
  {
  }

  /** A read returns normally, and then with the sector's contents: no command is refused. */
  lemma ReturnsFresh(s: State)
    requires PcInv(s) && !Writing(s)
    ensures CoreStep(s).outcomes == s.outcomes ||
            (s.pc == ReturnRead && CoreStep(s) == Return(s, s.result) && Current(s, s.sector, s.buff))
  {
  }

  lemma CoreKeepsInv(s: State)
    requires PcInv(s) && Fresh(s) && NoLostFlag(s, Core)
    ensures PcInv(CoreStep(s)) && Fresh(CoreStep(s))
  {
    if Writing(s) {
      WriteStepKeepsInv(s);
    } else {
      if Arriving(s) { ReadStepKeepsInv(s); } else { AheadStepKeepsInv(s); }
      ReturnsFresh(s);
    }
  }

  lemma MoveKeepsWriteInv(s: State, junk: Sector)
    requires PcInv(s) && Writing(s)
    ensures PcInv(MoveData(s, junk))
  {
  }

  lemma MoveKeepsInv(s: State, junk: Sector)
    requires PcInv(s)
    ensures PcInv(MoveData(s, junk)) && MoveData(s, junk).outcomes == s.outcomes
  {
    if Writing(s) { MoveKeepsWriteInv(s, junk); }
  }

  lemma StoreKeepsWriteInv(s: State)
    requires PcInv(s) && Writing(s)
    ensures PcInv(StoreStep(s))
  {
  }

  lemma StoreKeepsInv(s: State)
    requires PcInv(s)
    ensures PcInv(StoreStep(s)) && StoreStep(s).outcomes == s.outcomes
  {
    if Writing(s) { StoreKeepsWriteInv(s); }
  }

  lemma UsbKeepsInv(s: State, e: Event)
    requires PcInv(s) && !e.Core? && Careful(s, e)
    ensures PcInv(Step(s, e)) && Step(s, e).outcomes == s.outcomes
  {
    match e
    case Move(junk) => MoveKeepsInv(s, junk);
    case Store => StoreKeepsInv(s);
    case _ =>
  }

  lemma {:induction false} ReadsAreFresh(s: State, es: seq<Event>)
    requires PcInv(s) && Fresh(s) && Obeys(s, es, Careful)
    ensures PcInv(Run(s, es)) && Fresh(Run(s, es))
    decreases |es|
  {
    if es != [] {
      if es[0].Core? { CoreKeepsInv(s); } else { UsbKeepsInv(s, es[0]); }
      ReadsAreFresh(Step(s, es[0]), es[1..]);
    }
  }

  lemma InitialInv(s: State)
    requires Initial(s)
    ensures PcInv(s) && Fresh(s)
  {
  }

  /**
    Read-ahead is invisible: in every careful run, whenever the callbacks fire, each read of a
    sector that exists returns what the disk holds there when it returns. That each of the three
    rules is needed, at every point of a run, is PrefetchRuns.RulesAreExact.
   */
  lemma ReadAheadIsInvisible(s0: State, es: seq<Event>)
    requires Initial(s0) && Obeys(s0, es, Careful)
    ensures Fresh(Run(s0, es))
  {
    InitialInv(s0);
    ReadsAreFresh(s0, es);
  }


  // -------------------------------------------------------- what is returned

  /** read_sector does not look at result while the callback of an earlier command has yet to
      store there. */
  predicate ResultWaits(s: State, e: Event) {
    && (e.Core? && s.pc == Decide ==> s.cb.None?)
    && (e.Core? && s.pc == ReturnRead ==> s.cb.None? || s.cmd.None?)
  }

  predicate Orderly(s: State, e: Event) {
    Careful(s, e) && ResultWaits(s, e)
  }

  predicate Settled(s: State) { s.cmd.None? && s.cb.None? }

  /** Whatever is still in flight passes. */
  predicate Passes(s: State) {
    && (s.cmd.Some? && s.cmd.value.status.Some? ==> s.cmd.value.status.value == 0)
    && (s.cb.Some? ==> s.cb.value.status == 0)
  }

  /** result is 0, or about to become 0. */
  predicate Good(s: State) {
    if s.cb.Some? then s.cb.value.status == 0 else s.result == 0
  }

  predicate StatusInv(s: State) {
    match s.pc
    case IssueRead => Settled(s)
    case WaitRead =>
      && (s.cmd.Some? ==> s.cb.None?)
      && (s.sector < |s.disk| ==> Passes(s) && (Settled(s) ==> s.result == 0))
    case SetLba => s.sector < |s.disk| ==> Good(s)
    case ClearFlag => s.sector < |s.disk| ==> Good(s)
    case IssuePrefetch => s.sector < |s.disk| ==> Good(s)
    case ReturnRead => s.sector + 1 < |s.disk| ==> Passes(s) && (s.cb.None? || s.cmd.None? ==> s.result == 0)
    case _ => true
  }

  predicate Succeeds(s: State) {
    forall o :: o in s.outcomes && o.sector + 1 < |s.disk| ==> o.status == 0
  }

  lemma CoreKeepsStatus(s: State)
    requires PcInv(s) && StatusInv(s) && Succeeds(s) && ResultWaits(s, Core)
    ensures StatusInv(CoreStep(s)) && Succeeds(CoreStep(s)) && |CoreStep(s).disk| == |s.disk|
  {
    ReturnStatus(s);
  }

  lemma ReturnStatus(s: State)
    requires PcInv(s) && StatusInv(s)
    ensures CoreStep(s).outcomes == s.outcomes || (s.pc == ReturnRead && CoreStep(s) == Return(s, s.result))
  {
    if !Writing(s) { ReturnsFresh(s); }
  }

  lemma UsbKeepsStatus(s: State, e: Event)
    requires PcInv(s) && StatusInv(s) && !e.Core?
    ensures StatusInv(Step(s, e)) && Step(s, e).outcomes == s.outcomes && |Step(s, e).disk| == |s.disk|
  {
    match e
    case Move(junk) => MoveKeepsStatus(s, junk);
    case Store => StoreKeepsStatus(s);
    case _ =>
  }

  lemma MoveKeepsStatus(s: State, junk: Sector)
    requires PcInv(s) && StatusInv(s)
    ensures StatusInv(MoveData(s, junk)) && MoveData(s, junk).outcomes == s.outcomes
    ensures |MoveData(s, junk).disk| == |s.disk|
  {
  }

  lemma StoreKeepsStatus(s: State)
    requires PcInv(s) && StatusInv(s)
    ensures StatusInv(StoreStep(s)) && StoreStep(s).outcomes == s.outcomes && StoreStep(s).disk == s.disk
  {
  }

  /** Reads of sectors before the last one report success. */
  lemma {:induction false} ReadsSucceed(s: State, es: seq<Event>)
    requires PcInv(s) && Fresh(s) && StatusInv(s) && Succeeds(s) && Obeys(s, es, Orderly)
    ensures Succeeds(Run(s, es)) && |Run(s, es).disk| == |s.disk|
    decreases |es|
  {
    hide PcInv, StatusInv, CoreStep, MoveData, BeginCallback, StoreStep;
    if es != [] {
      if es[0].Core? {
        CoreKeepsInv(s);
        CoreKeepsStatus(s);
      } else {
        UsbKeepsInv(s, es[0]);
        UsbKeepsStatus(s, es[0]);
      }
      ReadsSucceed(Step(s, es[0]), es[1..]);
    }
  }

  // ---------------------------------------------- sectors that do not exist

  predicate ReadsInOrder(s: State, e: Event) {
    Orderly(s, e) && !e.StartWrite?
  }

  /** What is in flight fails, or has failed. */
  predicate Failing(s: State) {
    if s.cmd.Some? then
      s.cmd.value.command.sector >= |s.disk| && (s.cmd.value.status.Some? ==> s.cmd.value.status.value == 1)
    else if s.cb.Some? then s.cb.value.status == 1
    else s.result == 1
  }

  predicate FailInv(s: State) {
    match s.pc
    case Ready => s.lba >= |s.disk| ==> Failing(s)
    case WaitPrefetch => s.lba >= |s.disk| ==> Failing(s)
    case Decide => s.lba >= |s.disk| ==> Failing(s)
    case IssueRead => Settled(s)
    case WaitRead => (s.cmd.Some? ==> s.cb.None?) && (s.sector >= |s.disk| ==> Failing(s))
    case SetLba => s.sector >= |s.disk| ==> Failing(s)
    case ClearFlag => s.sector >= |s.disk| ==> Failing(s)
    case IssuePrefetch => s.sector >= |s.disk| ==> Failing(s)
    case ReturnRead =>
      && (s.lba >= |s.disk| ==> Failing(s))
      && (s.sector >= |s.disk| ==> if s.cb.Some? && s.cmd.Some? then s.cb.value.status == 1 else s.result == 1)
    case _ => false
  }

  /** Reads of sectors that do not exist have reported a failure. */
  predicate MissingFail(s: State) {
    forall o :: o in s.outcomes && o.sector >= |s.disk| ==> o.status == 1
  }

  lemma CoreKeepsFail(s: State)
    requires PcInv(s) && FailInv(s) && MissingFail(s) && ResultWaits(s, Core)
    ensures FailInv(CoreStep(s)) && MissingFail(CoreStep(s))
  {
    ReturnsFresh(s);
  }

  lemma UsbKeepsFail(s: State, e: Event)
    requires PcInv(s) && FailInv(s) && MissingFail(s) && !e.Core? && !e.StartWrite?
    ensures FailInv(Step(s, e)) && MissingFail(Step(s, e))
  {
    match e
    case Move(junk) => MoveKeepsFail(s, junk);
    case Store => StoreKeepsFail(s);
    case _ =>
  }

  lemma MoveKeepsFail(s: State, junk: Sector)
    requires PcInv(s) && FailInv(s) && MissingFail(s)
    ensures FailInv(MoveData(s, junk)) && MissingFail(MoveData(s, junk))
  {
  }

  lemma StoreKeepsFail(s: State)
    requires PcInv(s) && FailInv(s) && MissingFail(s)
    ensures FailInv(StoreStep(s)) && MissingFail(StoreStep(s))
  {
  }

  /** Without writes a read of a sector that does not exist reports a failure, also when that sector
      had been read ahead. */
  lemma {:induction false} MissingReadsFail(s: State, es: seq<Event>)
    requires PcInv(s) && Fresh(s) && FailInv(s) && MissingFail(s) && Obeys(s, es, ReadsInOrder)
    ensures MissingFail(Run(s, es)) && |Run(s, es).disk| == |s.disk|
    decreases |es|
  {
    hide PcInv, FailInv, MissingFail, CoreStep, MoveData, BeginCallback, StoreStep;
    if es != [] {
      if es[0].Core? {
        CoreKeepsInv(s);
        CoreKeepsFail(s);
        CoreKeepsSize(s);
      } else {
        UsbKeepsInv(s, es[0]);
        UsbKeepsFail(s, es[0]);
        UsbKeepsSize(s, es[0]);
      }
      MissingReadsFail(Step(s, es[0]), es[1..]);
    }
  }

  lemma CoreKeepsSize(s: State)
    ensures CoreStep(s).disk == s.disk
  {
  }

  lemma UsbKeepsSize(s: State, e: Event)
    requires !e.Core?
    ensures |Step(s, e).disk| == |s.disk|
  {
  }
}
