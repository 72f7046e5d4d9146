// Runs of the read-ahead that go wrong. They show that the rules of Prefetch are exact: one step
// against them, at any point of a run, and a run that keeps them from then on can return old data
// as a success. The last part says for which sectors the status of a read can be relied on.
module PrefetchRuns {
  import opened Bytes
  import opened Prefetch

  type Rule = (State, Event) -> bool

  ghost predicate Reaches(s0: State, es: seq<Event>, s: State, rule: Rule) {
    Run(s0, es) == s && Obeys(s0, es, rule)
  }

  lemma {:induction false} RunSnoc(s: State, es: seq<Event>, e: Event, rule: Rule)
    ensures Run(s, es + [e]) == Step(Run(s, es), e)
    ensures Obeys(s, es + [e], rule) <==> Obeys(s, es, rule) && rule(Run(s, es), e)
    decreases |es|
  {
    hide Step;
    if es == [] {
      assert es + [e] == [e];
      assert Run(s, [e]) == Run(Step(s, e), []);
    } else {
      assert (es + [e])[1..] == es[1..] + [e];
      RunSnoc(Step(s, es[0]), es[1..], e, rule);
    }
  }

  lemma Next(s0: State, es: seq<Event>, s: State, e: Event, rule: Rule) returns (es': seq<Event>, s': State)
    requires Reaches(s0, es, s, rule) && rule(s, e)
    ensures s' == Step(s, e) && Reaches(s0, es', s', rule)
  {
    hide Step;
    RunSnoc(s0, es, e, rule);
    es', s' := es + [e], Step(s, e);
  }

  // ------------------------------------------------------ pieces of schedules

  /** The rule allows reads, with callbacks that are not interrupted. */
  ghost predicate AllowsReads(rule: Rule) {
    forall s: State, e: Event :: !e.StartWrite? && (e.Core? || e.StartRead? ==> s.cb.None?) ==> rule(s, e)
  }

  lemma CarefulAllowsReads()
    ensures AllowsReads(Careful) && AllowsReads(Orderly)
  {
  }

  /** The callback makes the stores it still has to make. */
  function Finished(s: State): State
    requires s.cb.Some?
  {
    s.(complete := s.complete || s.cb.value.stores == 0,
       prefetchingComplete := s.prefetchingComplete || s.cb.value.stores <= 1,
       result := s.cb.value.status, cb := None)
  }

  lemma Finish(s0: State, es: seq<Event>, s: State, rule: Rule) returns (es': seq<Event>, s': State)
    requires Reaches(s0, es, s, rule) && AllowsReads(rule) && s.cb.Some?
    ensures Reaches(s0, es', s', rule) && s' == Finished(s)
  {
    hide Reaches;
    es', s' := es, s;
    if s'.cb.value.stores == 0 {
      es', s' := Next(s0, es', s', Store, rule);
    }
    if s'.cb.value.stores == 1 {
      es', s' := Next(s0, es', s', Store, rule);
    }
    es', s' := Next(s0, es', s', Store, rule);
  }

  /** A command whose data has not moved, and no callback running. */
  predicate Fetching(s: State) {
    s.cmd.Some? && s.cmd.value.status == None && s.cb == None
  }

  function DiskAfter(disk: seq<Sector>, c: Command): (after: seq<Sector>)
    ensures |after| == |disk|
  {
    if c.WriteCmd? && c.sector < |disk| then disk[c.sector := c.data] else disk
  }

  /** What a buffer holds after the command, if it is the one at that place. */
  function BufferAfter(disk: seq<Sector>, before: Sector, c: Command, place: Place): Sector {
    if c.ReadCmd? && c.into == place && c.sector < |disk| then disk[c.sector] else before
  }

  /** The command in flight has moved its data and its callback is entered. */
  function Arrived(s: State): State
    requires Fetching(s)
  {
    var c := s.cmd.value.command;
    s.(disk := DiskAfter(s.disk, c),
       buff := BufferAfter(s.disk, s.buff, c, Caller), prefetchBuff := BufferAfter(s.disk, s.prefetchBuff, c, Ahead),
       cmd := None, cb := Some(Callback(0, if c.sector < |s.disk| then 0 else 1)))
  }

  lemma Arrive(s0: State, es: seq<Event>, s: State, rule: Rule) returns (es': seq<Event>, s': State)
    requires Reaches(s0, es, s, rule) && AllowsReads(rule) && Fetching(s)
    ensures Reaches(s0, es', s', rule) && s' == Arrived(s)
  {
    hide Reaches;
    var c := s.cmd.value.command;
    es', s' := Next(s0, es, s, Move(if c.ReadCmd? && c.into == Ahead then s.prefetchBuff else s.buff), rule);
    es', s' := Next(s0, es', s', Begin, rule);
  }

  /** The command in flight is carried out and its callback runs. */
  lemma Fetch(s0: State, es: seq<Event>, s: State, rule: Rule) returns (es': seq<Event>, s': State)
    requires Reaches(s0, es, s, rule) && AllowsReads(rule) && Fetching(s)
    ensures Reaches(s0, es', s', rule) && s' == Finished(Arrived(s))
  {
    hide Reaches;
    es', s' := Arrive(s0, es, s, rule);
    es', s' := Finish(s0, es', s', rule);
  }

  /** The tail of read_sector: the next sector is asked for. */
  lemma AskAhead(s0: State, es: seq<Event>, s: State, rule: Rule) returns (es': seq<Event>, s': State)
    requires Reaches(s0, es, s, rule) && AllowsReads(rule) && s.pc == SetLba && Settled(s)
    ensures Reaches(s0, es', s', rule)
    ensures s' == s.(pc := ReturnRead, lba := s.sector + 1, prefetchingComplete := false,
                     cmd := Some(Flight(ReadCmd(s.sector + 1, Ahead), None)))
  {
    hide Reaches;
    es', s' := Next(s0, es, s, Core, rule);
    es', s' := Next(s0, es', s', Core, rule);
    es', s' := Next(s0, es', s', Core, rule);
  }

  /** A read that finds its sector read ahead. */
  lemma HitRead(s0: State, es: seq<Event>, s: State, n: nat, rule: Rule) returns (es': seq<Event>, s': State)
    requires Reaches(s0, es, s, rule) && AllowsReads(rule) && s.pc == Ready && s.cb == None
    requires s.lba == n && s.prefetchingComplete && s.result == 0
    ensures Reaches(s0, es', s', rule)
    ensures s' == s.(pc := SetLba, sector := n, buff := s.prefetchBuff)
  {
    hide Reaches;
    es', s' := Next(s0, es, s, StartRead(n), rule);
    es', s' := Next(s0, es', s', Core, rule);
    es', s' := Next(s0, es', s', Core, rule);
  }

  /** A read that does not, up to its command. */
  lemma Miss(s0: State, es: seq<Event>, s: State, n: nat, rule: Rule) returns (es': seq<Event>, s': State)
    requires Reaches(s0, es, s, rule) && AllowsReads(rule) && s.pc == Ready && s.cb == None
    requires s.lba != n && s.prefetchingComplete
    ensures Reaches(s0, es', s', rule)
    ensures s' == s.(pc := IssueRead, sector := n, complete := false)
  {
    hide Reaches;
    es', s' := Next(s0, es, s, StartRead(n), rule);
    es', s' := Next(s0, es', s', Core, rule);
    es', s' := Next(s0, es', s', Core, rule);
  }

  /** A read that does not find its sector read ahead, up to the wait for its command. */
  lemma MissRead(s0: State, es: seq<Event>, s: State, n: nat, rule: Rule) returns (es': seq<Event>, s': State)
    requires Reaches(s0, es, s, rule) && AllowsReads(rule) && s.pc == Ready && Settled(s)
    requires s.lba != n && s.prefetchingComplete
    ensures Reaches(s0, es', s', rule)
    ensures s' == s.(pc := WaitRead, sector := n, complete := false, cmd := Some(Flight(ReadCmd(n, Caller), None)))
  {
    hide Reaches;
    es', s' := Miss(s0, es, s, n, rule);
    es', s' := Next(s0, es', s', Core, rule);
  }

  // ------------------------------------------------------------- out of step

  /** Some read of sector n returned status. */
  ghost predicate Returned(s: State, n: nat, status: nat) {
    exists o :: o in s.outcomes && o.sector == n && o.status == status
  }

  predicate Stale(o: Outcome) {
    o.status == 0 && o.held.Some? && o.got != o.held.value
  }

  /** Some read of a sector that exists returned other data as a success. */
  predicate ServesStale(s: State) {
    exists o :: o in s.outcomes && Stale(o)
  }

  /** Both cores are between calls and the flags say that nothing is outstanding, yet a command is
      in flight. Its callback will be taken for that of the next command. */
  predicate OutOfStep(s: State) {
    s.pc == Ready && s.prefetchingComplete && Fetching(s)
  }

  /** Out of step on the read-ahead, the sector read ahead is served from the old buffer. */
  lemma HitServesStale(s0: State, es: seq<Event>, s: State, rule: Rule) returns (es': seq<Event>)
    requires Reaches(s0, es, s, rule) && AllowsReads(rule) && OutOfStep(s)
    requires 0 <= s.lba < |s.disk| && s.result == 0 && s.prefetchBuff != s.disk[s.lba]
    requires s.cmd.value.command == ReadCmd(s.lba, Ahead)
    ensures Obeys(s0, es', rule) && ServesStale(Run(s0, es')) && Returned(Run(s0, es'), s.lba, 0)
  {
    hide Reaches, Obeys, Run, ServesStale, Returned;
    var s';
    es', s' := HitRead(s0, es, s, s.lba, rule);
    es', s' := Fetch(s0, es', s', rule);
    es', s' := AskAhead(s0, es', s', rule);
    es' := ReturnStale(s0, es', s', rule);
  }

  /** The return of a read with other data. */
  lemma ReturnStale(s0: State, es: seq<Event>, s: State, rule: Rule) returns (es': seq<Event>)
    requires Reaches(s0, es, s, rule) && AllowsReads(rule) && s.pc == ReturnRead && s.cb == None
    requires s.result == 0 && s.sector < |s.disk| && s.buff != s.disk[s.sector]
    ensures Obeys(s0, es', rule) && ServesStale(Run(s0, es')) && Returned(Run(s0, es'), s.sector, 0)
  {
    hide Obeys, Run;
    var s';
    es', s' := Next(s0, es, s, Core, rule);
    var o := s'.outcomes[|s'.outcomes| - 1];
    assert o == Outcome(s.sector, 0, s.buff, Some(s.disk[s.sector]));
    assert o in s'.outcomes && Stale(o);
  }

  /** Out of step, a read takes the callback of the command in flight for its own. */
  lemma OverlapRead(s0: State, es: seq<Event>, s: State, n: nat) returns (es': seq<Event>, s': State)
    requires Reaches(s0, es, s, Careful) && OutOfStep(s) && s.lba != n
    ensures Reaches(s0, es', s', Careful)
    ensures s'.pc == SetLba && s'.sector == n && s'.cb == None
    ensures s'.cmd == Some(Flight(ReadCmd(n, Caller), None))
    ensures s'.disk == Arrived(s).disk && s'.prefetchBuff == Arrived(s).prefetchBuff
  {
    hide Reaches, DiskAfter, BufferAfter;
    CarefulAllowsReads();
    es', s' := Miss(s0, es, s, n, Careful);
    es', s' := Arrive(s0, es', s', Careful);
    es', s' := Next(s0, es', s', Core, Careful);
    es', s' := Finish(s0, es', s', Careful);
    es', s' := Next(s0, es', s', Core, Careful);
  }

  /** A read whose command is still in flight, up to the command of its read-ahead. */
  lemma OverlapAhead(s0: State, es: seq<Event>, s: State) returns (es': seq<Event>, s': State)
    requires Reaches(s0, es, s, Careful) && s.pc == SetLba && Fetching(s)
    requires s.cmd.value.command == ReadCmd(s.sector, Caller)
    ensures Reaches(s0, es', s', Careful) && s'.pc == ReturnRead
    ensures s'.lba == s.sector + 1 && s'.cmd == Some(Flight(ReadCmd(s.sector + 1, Ahead), None))
    ensures s'.cb == Some(Callback(0, if s.sector < |s.disk| then 0 else 1))
    ensures s'.disk == s.disk && s'.prefetchBuff == s.prefetchBuff
  {
    hide Reaches;
    CarefulAllowsReads();
    es', s' := Next(s0, es, s, Core, Careful);
    es', s' := Next(s0, es', s', Core, Careful);
    es', s' := Arrive(s0, es', s', Careful);
    es', s' := Next(s0, es', s', Core, Careful);
  }

  /** And so does the read-ahead that follows it: the cores stay out of step. */
  lemma StayOutOfStep(s0: State, es: seq<Event>, s: State, n: nat) returns (es': seq<Event>, s': State)
    requires Reaches(s0, es, s, Careful) && OutOfStep(s) && s.lba != n
    ensures Reaches(s0, es', s', Careful) && OutOfStep(s')
    ensures s'.lba == n + 1 && s'.cmd.value.command == ReadCmd(n + 1, Ahead)
    ensures s'.result == if n < |s.disk| then 0 else 1
    ensures s'.disk == Arrived(s).disk && s'.prefetchBuff == Arrived(s).prefetchBuff
  {
    hide Reaches, DiskAfter, BufferAfter;
    CarefulAllowsReads();
    es', s' := OverlapRead(s0, es, s, n);
    es', s' := OverlapAhead(s0, es', s');
    es', s' := Finish(s0, es', s', Careful);
    es', s' := Next(s0, es', s', Core, Careful);
  }

  /** Out of step, a write returns before it is carried out. */
  lemma OverlapWrite(s0: State, es: seq<Event>, s: State, n: nat, x: Sector) returns (es': seq<Event>, s': State)
    requires Reaches(s0, es, s, Careful) && OutOfStep(s) && s.lba != n
    ensures Reaches(s0, es', s', Careful) && OutOfStep(s')
    ensures s'.lba == s.lba && s'.cmd.value.command == WriteCmd(n, x)
    ensures s'.disk == Arrived(s).disk && s'.prefetchBuff == Arrived(s).prefetchBuff
  {
    hide Reaches, DiskAfter, BufferAfter;
    CarefulAllowsReads();
    es', s' := Next(s0, es, s, StartWrite(n, x), Careful);
    es', s' := Next(s0, es', s', Core, Careful);
    es', s' := Arrive(s0, es', s', Careful);
    es', s' := Next(s0, es', s', Core, Careful);
    es', s' := Finish(s0, es', s', Careful);
    es', s' := Next(s0, es', s', Core, Careful);
    es', s' := Next(s0, es', s', Core, Careful);
  }

  function Other(x: Sector): (y: Sector)
    ensures y != x
  {
    x[0 := if x[0] == 0 then 1 else 0]
  }

  /** Whatever the disk holds, a careful run can go on to serve stale data: read elsewhere, write
      sector 1, read sector 0, and read sector 1 from the old buffer. */
  lemma OutOfStepServesStale(s0: State, es: seq<Event>, s: State) returns (es': seq<Event>)
    requires Reaches(s0, es, s, Careful) && OutOfStep(s) && |s.disk| >= 2
    ensures Obeys(s0, es', Careful) && ServesStale(Run(s0, es'))
  {
    hide Reaches, ServesStale, Obeys, Run;
    CarefulAllowsReads();
    var s';
    es', s' := StayOutOfStep(s0, es, s, if s.lba == 2 then 3 else 2);
    var x := Other(Arrived(s').prefetchBuff);
    es', s' := OverlapWrite(s0, es', s', 1, x);
    assert Arrived(s').disk[1] == x;
    es', s' := StayOutOfStep(s0, es', s', 0);
    es' := HitServesStale(s0, es', s', Careful);
  }

  // -------------------------------------------------------- the three mistakes

  /** The flag is cleared between the callback's stores: it is set again although the read-ahead
      is in flight. */
  lemma LoseFlag(s: State, rule: Rule) returns (es: seq<Event>, s': State)
    requires PcInv(s) && !NoLostFlag(s, Core) && AllowsReads(rule)
    ensures Reaches(Step(s, Core), es, s', rule) && OutOfStep(s')
    ensures s'.disk == s.disk && s'.prefetchBuff == s.prefetchBuff && s'.result == s.cb.value.status
    ensures s'.lba == s.sector + 1 && s'.cmd.value.command == ReadCmd(s.sector + 1, Ahead)
  {
    var s0 := Step(s, Core);
    es, s' := [], s0;
    assert Reaches(s0, es, s', rule);
    hide Reaches;
    es, s' := Finish(s0, es, s', rule);
    es, s' := Next(s0, es, s', Core, rule);
    es, s' := Next(s0, es, s', Core, rule);
  }

  predicate ReadOnly(s: State, e: Event) {
    Careful(s, e) && !e.StartWrite?
  }

  /** A lost flag shows with reads alone when the buffer holds other data than the next sector. */
  lemma LostFlagServesStale(s: State) returns (es: seq<Event>)
    requires PcInv(s) && !NoLostFlag(s, Core) && s.cb.value.status == 0
    requires s.sector + 1 < |s.disk| && s.prefetchBuff != s.disk[s.sector + 1]
    ensures Obeys(Step(s, Core), es, ReadOnly) && ServesStale(Run(Step(s, Core), es))
    ensures Returned(Run(Step(s, Core), es), s.sector + 1, 0)
  {
    hide PcInv, Reaches, Step, Obeys, Run, ServesStale, Returned;
    var s';
    es, s' := LoseFlag(s, ReadOnly);
    es := HitServesStale(Step(s, Core), es, s', ReadOnly);
  }

  /** The callback of the read-ahead has not started, or has made no store. */
  predicate Coming(s: State) {
    if s.cmd.Some? then s.cmd.value.status.Some? && s.cb == None
    else s.cb.Some? && s.cb.value.stores == 0
  }

  lemma CatchUp(s0: State, es: seq<Event>, s: State) returns (es': seq<Event>, s': State)
    requires Reaches(s0, es, s, Careful) && (s.cmd.Some? || Coming(s))
    requires s.cmd.Some? && s.cb.Some? ==> s.cb.value.stores == 2
    ensures Reaches(s0, es', s', Careful) && Coming(s')
    ensures s'.pc == s.pc && s'.sector == s.sector && s'.data == s.data && s'.lba == s.lba && |s'.disk| == |s.disk|
  {
    hide Reaches;
    CarefulAllowsReads();
    es', s' := es, s;
    if s.cmd.Some? {
      if s'.cb.Some? { es', s' := Finish(s0, es', s', Careful); }
      es', s' := Next(s0, es', s', Move(s.buff), Careful);
    }
  }

  /** A write that starts while the read-ahead is under way takes its callback for its own. */
  lemma EarlyWrite(s: State, n: nat, x: Sector) returns (es: seq<Event>, s': State)
    requires PcInv(s) && !WriteWaits(s, StartWrite(n, x))
    ensures Reaches(Step(s, StartWrite(n, x)), es, s', Careful) && OutOfStep(s') && |s'.disk| == |s.disk|
  {
    var s0 := Step(s, StartWrite(n, x));
    es, s' := [], s0;
    assert Reaches(s0, es, s', Careful);
    hide Reaches, PcInv;
    assert (s.cmd.Some? || Coming(s)) && (s.cmd.Some? && s.cb.Some? ==> s.cb.value.stores == 2) by {
      Outstanding(s, n, x);
    }
    es, s' := CatchUp(s0, es, s');
    es, s' := TakeCallback(s0, es, s');
  }

  lemma Outstanding(s: State, n: nat, x: Sector)
    requires PcInv(s) && !WriteWaits(s, StartWrite(n, x))
    ensures s.cmd.Some? || Coming(s)
    ensures s.cmd.Some? && s.cb.Some? ==> s.cb.value.stores == 2
  {
  }

  lemma TakeCallback(s0: State, es: seq<Event>, s: State) returns (es': seq<Event>, s': State)
    requires Reaches(s0, es, s, Careful) && Coming(s) && s.pc == ClearComplete
    ensures Reaches(s0, es', s', Careful) && OutOfStep(s') && s'.disk == s.disk
  {
    hide Reaches;
    CarefulAllowsReads();
    es', s' := Next(s0, es, s, Core, Careful);
    es', s' := Next(s0, es', s', Begin, Careful);
    es', s' := Next(s0, es', s', Core, Careful);
    es', s' := Finish(s0, es', s', Careful);
    es', s' := Next(s0, es', s', Core, Careful);
    es', s' := Next(s0, es', s', Core, Careful);
  }

  /** A write that changes the sector read ahead, up to its return. */
  lemma WriteAhead(s: State, x: Sector) returns (es: seq<Event>, s': State)
    requires PcInv(s) && s.pc == Ready && s.lba >= 0 && WriteWaits(s, StartWrite(s.lba, x)) && HitsAhead(s, s.lba, x)
    ensures Reaches(Step(s, StartWrite(s.lba, x)), es, s', Careful)
    ensures s'.pc == Ready && Settled(s') && s'.prefetchingComplete && s'.result == 0
    ensures s'.lba == s.lba && s'.disk == s.disk[s.lba := x] && s'.prefetchBuff == s.disk[s.lba]
  {
    var s0 := Step(s, StartWrite(s.lba, x));
    es, s' := [], s0;
    assert Reaches(s0, es, s', Careful);
    hide Reaches;
    CarefulAllowsReads();
    if s'.cb.Some? { es, s' := Finish(s0, es, s', Careful); }
    es, s' := WriteThrough(s0, es, s');
  }

  /** The rest of a write, with nothing else in flight. */
  lemma WriteThrough(s0: State, es: seq<Event>, s: State) returns (es': seq<Event>, s': State)
    requires Reaches(s0, es, s, Careful) && s.pc == ClearComplete && Settled(s) && s.sector < |s.disk|
    ensures Reaches(s0, es', s', Careful)
    ensures s' == s.(pc := Ready, complete := true, prefetchingComplete := true, result := 0,
                     disk := s.disk[s.sector := s.data])
  {
    hide Reaches;
    CarefulAllowsReads();
    es', s' := Next(s0, es, s, Core, Careful);
    es', s' := Next(s0, es', s', Core, Careful);
    es', s' := Fetch(s0, es', s', Careful);
    es', s' := Next(s0, es', s', Core, Careful);
    es', s' := Next(s0, es', s', Core, Careful);
  }

  /** The next read of that sector does not see the write. */
  lemma WriteAheadServesStale(s: State, x: Sector) returns (es: seq<Event>)
    requires PcInv(s) && s.pc == Ready && s.lba >= 0 && WriteWaits(s, StartWrite(s.lba, x)) && HitsAhead(s, s.lba, x)
    ensures Obeys(Step(s, StartWrite(s.lba, x)), es, Careful)
    ensures ServesStale(Run(Step(s, StartWrite(s.lba, x)), es))
    ensures Returned(Run(Step(s, StartWrite(s.lba, x)), es), s.lba, 0)
  {
    hide PcInv, Reaches, Obeys, Run, ServesStale, Returned;
    var s0 := Step(s, StartWrite(s.lba, x));
    var s';
    es, s' := WriteAhead(s, x);
    CarefulAllowsReads();
    es, s' := HitRead(s0, es, s', s.lba, Careful);
    es, s' := AskAhead(s0, es, s', Careful);
    es := ReturnStale(s0, es, s', Careful);
  }

  // --------------------------------------------------------- the rules are exact

  /** Whatever follows within the rules, every read is fresh. */
  ghost predicate StaysFresh(s: State) {
    forall es :: Obeys(s, es, Careful) ==> Fresh(Run(s, es))
  }

  /** Something within the rules can follow that serves stale data as a success. */
  ghost predicate CanServeStale(s: State) {
    exists es :: Obeys(s, es, Careful) && ServesStale(Run(s, es))
  }

  /** Each step against the rules opens the way to stale data. */
  lemma CarelessServesStale(s: State, e: Event)
    requires PcInv(s) && |s.disk| >= 2 && !Careful(s, e)
    ensures CanServeStale(Step(s, e))
  {
    hide PcInv, Reaches, ServesStale, Run, Obeys, HitsAhead, OutOfStep, Step;
    var es, s';
    if !NoLostFlag(s, e) {
      CarefulAllowsReads();
      es, s' := LoseFlag(s, Careful);
      es := OutOfStepServesStale(Step(s, e), es, s');
    } else if !WriteWaits(s, e) {
      es, s' := EarlyWrite(s, e.sector, e.data);
      es := OutOfStepServesStale(Step(s, e), es, s');
    } else {
      assert s.lba == e.sector by { assert HitsAhead(s, e.sector, e.data); AheadIsSector(s, e.sector, e.data); }
      es := WriteAheadServesStale(s, e.data);
    }
  }

  lemma AheadIsSector(s: State, n: nat, x: Sector)
    requires HitsAhead(s, n, x)
    ensures s.lba == n
  {
  }

  lemma StaleIsNotFresh(s: State)
    requires CanServeStale(s)
    ensures !StaysFresh(s)
  {
    var es :| Obeys(s, es, Careful) && ServesStale(Run(s, es));
    assert !Fresh(Run(s, es));
  }

  lemma CarefulStaysFresh(s: State)
    requires PcInv(s) && Fresh(s)
    ensures StaysFresh(s)
  {
    hide PcInv, Fresh, Run, Obeys;
    forall es | Obeys(s, es, Careful) ensures Fresh(Run(s, es)) { ReadsAreFresh(s, es); }
  }

  /** One step decides: after it all is fresh for ever if it kept the rules, and stale data can be
      served if it did not. */
  lemma FreshnessIff(s: State, e: Event)
    requires PcInv(s) && Fresh(s) && |s.disk| >= 2
    ensures StaysFresh(Step(s, e)) <==> Careful(s, e)
    ensures CanServeStale(Step(s, e)) <==> !Careful(s, e)
  {
    hide PcInv, Fresh, Careful, StaysFresh, CanServeStale;
    if Careful(s, e) {
      KeepsInv(s, e);
      CarefulStaysFresh(Step(s, e));
    } else {
      CarelessServesStale(s, e);
    }
    if CanServeStale(Step(s, e)) { StaleIsNotFresh(Step(s, e)); }
  }

  lemma KeepsInv(s: State, e: Event)
    requires PcInv(s) && Fresh(s) && Careful(s, e)
    ensures PcInv(Step(s, e)) && Fresh(Step(s, e)) && |Step(s, e).disk| == |s.disk|
  {
    hide PcInv;
    if e.Core? { CoreKeepsInv(s); } else { UsbKeepsInv(s, e); }
  }

  /** At no point of the run can it be continued, within the rules, to a read that is not fresh. */
  ghost predicate FreshAllAlong(s: State, es: seq<Event>)
    decreases |es|
  {
    StaysFresh(s) && (es == [] || FreshAllAlong(Step(s, es[0]), es[1..]))
  }

  lemma {:induction false} AllAlongIff(s: State, es: seq<Event>)
    requires PcInv(s) && Fresh(s) && |s.disk| >= 2
    ensures FreshAllAlong(s, es) <==> Obeys(s, es, Careful)
    decreases |es|
  {
    hide PcInv, Fresh, Careful, StaysFresh, CanServeStale, Step;
    CarefulStaysFresh(s);
    if es != [] {
      FreshnessIff(s, es[0]);
      if Careful(s, es[0]) {
        KeepsInv(s, es[0]);
        AllAlongIff(Step(s, es[0]), es[1..]);
      }
    }
  }

  /**
    The three rules are exact. Take any run on a disk of two sectors or more: it kept the rules at
    every step if and only if at every point of it all that could follow within the rules is fresh.
   */
  lemma RulesAreExact(s0: State, es: seq<Event>)
    requires Initial(s0) && |s0.disk| >= 2
    ensures FreshAllAlong(s0, es) <==> Obeys(s0, es, Careful)
  {
    hide PcInv, Fresh, Careful, FreshAllAlong, Obeys;
    InitialInv(s0);
    AllAlongIff(s0, es);
  }

  // -------------------------------------------------------- what can be relied on

  /** In every run by the rule, a read of sector n reports success. */
  ghost predicate AlwaysSucceeds(s0: State, n: nat, rule: Rule) {
    forall es :: Obeys(s0, es, rule) ==> forall status :: Returned(Run(s0, es), n, status) ==> status == 0
  }

  /** Reading the last sector of the disk can go either way: its status is that of the
      read-ahead past the end if that is over in time. */
  lemma LastSectorEitherWay(s0: State, n: nat, rule: Rule) returns (quick: seq<Event>, late: seq<Event>)
    requires Initial(s0) && n + 1 == |s0.disk| && AllowsReads(rule)
    ensures Obeys(s0, quick, rule) && Returned(Run(s0, quick), n, 0)
    ensures Obeys(s0, late, rule) && Returned(Run(s0, late), n, 1)
  {
    var es, s := MissRead(s0, [], s0, n, rule);
    es, s := Fetch(s0, es, s, rule);
    es, s := Next(s0, es, s, Core, rule);
    es, s := AskAhead(s0, es, s, rule);
    var s1, s2;
    quick, s1 := Next(s0, es, s, Core, rule);
    assert s1.outcomes[|s1.outcomes| - 1].status == 0;
    late, s2 := Fetch(s0, es, s, rule);
    late, s2 := Next(s0, late, s2, Core, rule);
    assert s2.outcomes[|s2.outcomes| - 1].status == 1;
  }

  /** A sector that exists is always reported read if and only if the next one exists, too,
      provided that read_sector never looks at result too early. */
  lemma StatusIsReliableIff(s0: State, n: nat)
    requires Initial(s0) && n < |s0.disk|
    ensures AlwaysSucceeds(s0, n, Orderly) <==> n + 1 < |s0.disk|
  {
    InitialInv(s0);
    if n + 1 < |s0.disk| {
      forall es | Obeys(s0, es, Orderly)
        ensures forall status :: Returned(Run(s0, es), n, status) ==> status == 0
      {
        ReadsSucceed(s0, es);
      }
    } else {
      CarefulAllowsReads();
      var quick, late := LastSectorEitherWay(s0, n, Orderly);
    }
  }

  /** A read past the end leaves result at 1, with nothing in flight. */
  lemma FailRead(s0: State, n: nat) returns (es: seq<Event>, s: State)
    requires Initial(s0) && n >= |s0.disk|
    ensures Reaches(s0, es, s, Careful)
    ensures s.pc == Ready && Settled(s) && s.prefetchingComplete && s.result == 1 && s.lba == n + 1 && s.disk == s0.disk
  {
    assert Reaches(s0, [], s0, Careful);
    hide Reaches;
    CarefulAllowsReads();
    es, s := MissRead(s0, [], s0, n, Careful);
    es, s := Fetch(s0, es, s, Careful);
    es, s := Next(s0, es, s, Core, Careful);
    es, s := AskAhead(s0, es, s, Careful);
    es, s := Next(s0, es, s, Core, Careful);
    es, s := Fetch(s0, es, s, Careful);
  }

  /** If read_sector returns before the callback's store to result, it returns an older status. */
  lemma HastyRead(s0: State, es: seq<Event>, s: State, n: nat) returns (es': seq<Event>, s': State)
    requires Reaches(s0, es, s, Careful) && s.pc == Ready && Settled(s)
    requires s.prefetchingComplete && s.lba != n < |s.disk|
    ensures Reaches(s0, es', s', Careful) && Returned(s', n, s.result)
  {
    hide Reaches;
    CarefulAllowsReads();
    es', s' := MissRead(s0, es, s, n, Careful);
    es', s' := Arrive(s0, es', s', Careful);
    es', s' := Next(s0, es', s', Store, Careful);
    es', s' := Next(s0, es', s', Store, Careful);
    es', s' := Next(s0, es', s', Core, Careful);
    es', s' := Next(s0, es', s', Core, Careful);
    es', s' := Next(s0, es', s', Core, Careful);
    es', s' := Next(s0, es', s', Core, Careful);
    es', s' := Next(s0, es', s', Core, Careful);
    var o := s'.outcomes[|s'.outcomes| - 1];
    assert o.sector == n && o.status == s.result;
  }

  /** The rules for fresh data do not make any status reliable: each sector that exists is reported
      as failed in some careful run. */
  lemma NoStatusIsReliable(s0: State, n: nat)
    requires Initial(s0) && n < |s0.disk|
    ensures !AlwaysSucceeds(s0, n, Careful)
  {
    hide Reaches, Obeys, Run, Returned;
    var es, s := FailRead(s0, |s0.disk|);
    es, s := HastyRead(s0, es, s, n);
    assert Obeys(s0, es, Careful) && Returned(Run(s0, es), n, 1) by { Unfold(s0, es, s, n); }
  }

  lemma Unfold(s0: State, es: seq<Event>, s: State, n: nat)
    requires Reaches(s0, es, s, Careful) && Returned(s, n, 1)
    ensures Obeys(s0, es, Careful) && Returned(Run(s0, es), n, 1)
  {
  }

  // ---------------------------------------------- sectors that do not exist

  /** In every run by the rule, a read of sector n reports a failure. */
  ghost predicate AlwaysFails(s0: State, n: nat, rule: Rule) {
    forall es :: Obeys(s0, es, rule) ==> forall status :: Returned(Run(s0, es), n, status) ==> status == 1
  }

  /** A whole read that does not find its sector read ahead, and its read-ahead. */
  lemma WholeRead(s0: State, es: seq<Event>, s: State, n: nat, rule: Rule) returns (es': seq<Event>, s': State)
    requires Reaches(s0, es, s, rule) && AllowsReads(rule) && s.pc == Ready && Settled(s)
    requires s.lba != n && s.prefetchingComplete
    ensures Reaches(s0, es', s', rule)
    ensures s'.pc == Ready && Settled(s') && s'.prefetchingComplete && s'.lba == n + 1 && s'.disk == s.disk
  {
    hide Reaches;
    es', s' := MissRead(s0, es, s, n, rule);
    es', s' := Fetch(s0, es', s', rule);
    es', s' := Next(s0, es', s', Core, rule);
    es', s' := AskAhead(s0, es', s', rule);
    es', s' := Next(s0, es', s', Core, rule);
    es', s' := Fetch(s0, es', s', rule);
  }

  /** A whole write, with nothing else in flight. */
  lemma WholeWrite(s0: State, es: seq<Event>, s: State, n: nat, x: Sector) returns (es': seq<Event>, s': State)
    requires Reaches(s0, es, s, Orderly) && s.pc == Ready && Settled(s) && s.prefetchingComplete
    requires n < |s.disk| && s.lba != n
    ensures Reaches(s0, es', s', Orderly)
    ensures s'.pc == Ready && Settled(s') && s'.prefetchingComplete && s'.result == 0 && s'.lba == s.lba
    ensures |s'.disk| == |s.disk|
  {
    hide Reaches;
    CarefulAllowsReads();
    es', s' := Next(s0, es, s, StartWrite(n, x), Orderly);
    es', s' := Next(s0, es', s', Core, Orderly);
    es', s' := Next(s0, es', s', Core, Orderly);
    es', s' := Fetch(s0, es', s', Orderly);
    es', s' := Next(s0, es', s', Core, Orderly);
    es', s' := Next(s0, es', s', Core, Orderly);
  }

  /** A write in between resets the status that a failed read-ahead left: the sector counts as
      read ahead, and reading it succeeds. */
  lemma MissingSectorSucceeds(s0: State, n: nat) returns (es: seq<Event>)
    requires Initial(s0) && 1 <= |s0.disk| <= n
    ensures Obeys(s0, es, Orderly) && Returned(Run(s0, es), n, 0)
  {
    assert Reaches(s0, [], s0, Orderly);
    hide Reaches, Obeys, Run, Returned;
    CarefulAllowsReads();
    var s;
    es, s := WholeRead(s0, [], s0, n - 1, Orderly);
    es, s := WholeWrite(s0, es, s, 0, s.buff);
    es, s := HitRead(s0, es, s, n, Orderly);
    es, s := AskAhead(s0, es, s, Orderly);
    es := ReturnsResult(s0, es, s, Orderly);
  }

  lemma ReturnsResult(s0: State, es: seq<Event>, s: State, rule: Rule) returns (es': seq<Event>)
    requires Reaches(s0, es, s, rule) && AllowsReads(rule) && s.pc == ReturnRead && s.cb == None
    ensures Obeys(s0, es', rule) && Returned(Run(s0, es'), s.sector, s.result)
  {
    hide Obeys, Run;
    var s';
    es', s' := Next(s0, es, s, Core, rule);
    var o := s'.outcomes[|s'.outcomes| - 1];
    assert o in s'.outcomes && o.sector == s.sector && o.status == s.result;
  }

  /** A sector that does not exist is always reported as failed by runs of reads; with writes it
      can be reported as read. */
  lemma MissingSectorStatus(s0: State, n: nat)
    requires Initial(s0) && n >= |s0.disk|
    ensures AlwaysFails(s0, n, ReadsInOrder)
    ensures |s0.disk| >= 1 ==> !AlwaysFails(s0, n, Orderly)
  {
    InitialInv(s0);
    forall es | Obeys(s0, es, ReadsInOrder)
      ensures forall status :: Returned(Run(s0, es), n, status) ==> status == 1
    {
      MissingReadsFail(s0, es);
    }
    if |s0.disk| >= 1 { var es := MissingSectorSucceeds(s0, n); }
  }
}
