// The strobe/acknowledge byte handshake between the DOS host (read_byte and write_byte in
// dos/SDPP10/LPTSTORE.C) and the device (lptcomms_readbyte and lptcomms_writebyte in
// pico/lptcomms.c).
//
// Two program counters share the wires. Every port or pin access is one atomic step, and a
// schedule interleaves the steps of the two sides in any order. Levels are logical: the
// inversion of the device's data pins is undone by the board.
module Handshake {
  import opened Bytes

  /** One byte of a session, with its direction. Both sides follow the same script. */
  datatype Op = ToDevice(b: byte) | ToHost(b: byte)

  type nibble = x: int | 0 <= x < 16

  function High(b: byte): nibble { b / 16 }
  function Low(b: byte): nibble { b % 16 }

  /** The device's four separate data pins. */
  datatype Pins = Pins(p0: bool, p1: bool, p2: bool, p3: bool) {
    function Value(): nibble {
      (if p0 then 1 else 0) + (if p1 then 2 else 0) + (if p2 then 4 else 0) + (if p3 then 8 else 0)
    }

    /** One gpio_put: pin k takes bit k of n. */
    function Put(k: nat, n: nibble): Pins {
      if k == 0 then this.(p0 := n % 2 == 1)
      else if k == 1 then this.(p1 := n / 2 % 2 == 1)
      else if k == 2 then this.(p2 := n / 4 % 2 == 1)
      else this.(p3 := n / 8 % 2 == 1)
    }

    /** Pins 0..k-1 already show n. */
    predicate Shows(k: nat, n: nibble) {
      && (k > 0 ==> p0 == (n % 2 == 1))
      && (k > 1 ==> p1 == (n / 2 % 2 == 1))
      && (k > 2 ==> p2 == (n / 4 % 2 == 1))
      && (k > 3 ==> p3 == (n / 8 % 2 == 1))
    }
  }

  /** Pin 0 carries the lowest bit. */
  lemma PinWeights(p: Pins)
    ensures p.p0 <==> p.Value() % 2 == 1
    ensures p.p1 <==> p.Value() / 2 % 2 == 1
    ensures p.p2 <==> p.Value() / 4 % 2 == 1
    ensures p.p3 <==> p.Value() / 8 == 1
  {
  }

  lemma PinsShow(p: Pins, n: nibble)
    ensures p.Shows(4, n) ==> p.Value() == n
  {
  }

  /**
    hk, dk: the operation each side is in; hp, dp: its next step within that operation.

    Host, sending a byte:      0 OUT high nibble and strobe; 1 poll ack high; 2 OUT low nibble
                               without strobe; 3 poll ack low.
    Host, receiving:           0 poll ack high; 1 IN high nibble; 2 OUT strobe; 3 poll ack low;
                               4 IN low nibble; 5 OUT zero.
    Device, receiving:         0 poll strobe high; 1 read high nibble; 2 raise ack; 3 poll strobe
                               low; 4 read low nibble; 5 drop ack.
    Device, sending:           0..3 put high nibble pin by pin; 4 raise ack; 5 poll strobe high;
                               6..9 put low nibble; 10 drop ack; 11 poll strobe low.
   */
  datatype State = State(
    hk: nat, hp: nat, hAcc: int,
    dk: nat, dp: nat, dAcc: int,
    strobe: bool, data: nibble, ack: bool, pins: Pins,
    hostGot: seq<byte>, deviceGot: seq<byte>)

  datatype Actor = Host | Device

  /** A side whose byte arrived appends it; a and lo are two nibbles. */
  function Join(a: int, lo: nibble): byte {
    if 0 <= a < 16 then a * 16 + lo else lo
  }

  function HostStep(t: seq<Op>, s: State): State {
    if s.hk >= |t| then s
    else match t[s.hk]
      case ToDevice(b) =>
        (match s.hp
         case 0 => s.(strobe := true, data := High(b), hp := 1)
         case 1 => if s.ack then s.(hp := 2) else s
         case 2 => s.(strobe := false, data := Low(b), hp := 3)
         case _ => if !s.ack then s.(hk := s.hk + 1, hp := 0) else s)
      case ToHost(_) =>
        (match s.hp
         case 0 => if s.ack then s.(hp := 1) else s
         case 1 => s.(hAcc := s.pins.Value(), hp := 2)
         case 2 => s.(strobe := true, data := 0, hp := 3)
         case 3 => if !s.ack then s.(hp := 4) else s
         case 4 => s.(hostGot := s.hostGot + [Join(s.hAcc, s.pins.Value())], hp := 5)
         case _ => s.(strobe := false, data := 0, hk := s.hk + 1, hp := 0))
  }

  function DeviceStep(t: seq<Op>, s: State): State {
    if s.dk >= |t| then s
    else match t[s.dk]
      case ToDevice(_) =>
        (match s.dp
         case 0 => if s.strobe then s.(dp := 1) else s
         case 1 => s.(dAcc := s.data, dp := 2)
         case 2 => s.(ack := true, dp := 3)
         case 3 => if !s.strobe then s.(dp := 4) else s
         case 4 => s.(deviceGot := s.deviceGot + [Join(s.dAcc, s.data)], dp := 5)
         case _ => s.(ack := false, dk := s.dk + 1, dp := 0))
      case ToHost(b) =>
        if s.dp < 4 then s.(pins := s.pins.Put(s.dp, High(b)), dp := s.dp + 1)
        else if s.dp == 4 then s.(ack := true, dp := 5)
        else if s.dp == 5 then (if s.strobe then s.(dp := 6) else s)
        else if s.dp < 10 then s.(pins := s.pins.Put(s.dp - 6, Low(b)), dp := s.dp + 1)
        else if s.dp == 10 then s.(ack := false, dp := 11)
        else if !s.strobe then s.(dk := s.dk + 1, dp := 0) else s
  }

  function Step(t: seq<Op>, s: State, a: Actor): State {
    if a == Host then HostStep(t, s) else DeviceStep(t, s)
  }

  /** Both sides at the start of the script, all lines low. */
  predicate Initial(s: State) {
    s.hk == 0 && s.hp == 0 && s.dk == 0 && s.dp == 0 && !s.strobe && !s.ack &&
    s.hostGot == [] && s.deviceGot == []
  }

  function Run(t: seq<Op>, s: State, schedule: seq<Actor>): State
    decreases |schedule|
  {
    if schedule == [] then s else Run(t, Step(t, s, schedule[0]), schedule[1..])
  }

  predicate Finished(t: seq<Op>, s: State) {
    s.hk == |t| && s.dk == |t|
  }

  /**
    The turn assumption. When the direction of the line turns, the side that speaks next must
    not raise its line before the other side has finished its closing poll: the device raises
    ack for a reply only after the host's poll at step 3, the host raises strobe for a
    request only after the device's poll at step 11.
   */
  predicate Disciplined(t: seq<Op>, s: State, a: Actor) {
    match a
    case Host => s.hk < |t| && t[s.hk].ToDevice? && s.hp == 0 ==> s.dk == s.hk
    case Device => s.dk < |t| && t[s.dk].ToHost? && s.dp == 4 ==> s.hk == s.dk
  }

  predicate DisciplinedRun(t: seq<Op>, s: State, schedule: seq<Actor>)
    decreases |schedule|
  {
    schedule == [] ||
    (Disciplined(t, s, schedule[0]) && DisciplinedRun(t, Step(t, s, schedule[0]), schedule[1..]))
  }

  // -------------------------------------------------------------- invariant

  function HostBytes(t: seq<Op>): seq<byte> {
    if t == [] then []
    else
      var rest, last := HostBytes(t[..|t| - 1]), t[|t| - 1];
      if last.ToHost? then rest + [last.b] else rest
  }

  function DeviceBytes(t: seq<Op>): seq<byte> {
    if t == [] then []
    else
      var rest, last := DeviceBytes(t[..|t| - 1]), t[|t| - 1];
      if last.ToDevice? then rest + [last.b] else rest
  }

  lemma BytesUpTo(t: seq<Op>, k: nat)
    requires k < |t|
    ensures HostBytes(t[..k + 1]) == HostBytes(t[..k]) + (if t[k].ToHost? then [t[k].b] else [])
    ensures DeviceBytes(t[..k + 1]) == DeviceBytes(t[..k]) + (if t[k].ToDevice? then [t[k].b] else [])
  {
    assert t[..k + 1][..k] == t[..k];
  }

  /** The wires and counters while both sides are in the same operation. */
  predicate Together(op: Op, s: State) {
    match op
    case ToDevice(b) =>
      && s.strobe == (1 <= s.hp <= 2) && s.ack == (s.dp >= 3)
      && (match s.hp
          case 0 => s.dp == 0
          case 1 => s.dp <= 3 && s.data == High(b) && (s.dp >= 2 ==> s.dAcc == High(b))
          case 2 => s.dp == 3 && s.dAcc == High(b)
          case 3 => 3 <= s.dp <= 5 && s.data == Low(b) && s.dAcc == High(b)
          case _ => false)
    case ToHost(b) =>
      && s.strobe == (s.hp >= 3) && s.ack == (5 <= s.dp <= 10)
      && (match s.hp
          case 0 => s.dp <= 5 && s.pins.Shows(s.dp, High(b))
          case 1 => s.dp == 5 && s.pins.Shows(4, High(b))
          case 2 => s.dp == 5 && s.hAcc == High(b)
          case 3 => s.hAcc == High(b) && 5 <= s.dp <= 11 && (s.dp > 6 ==> s.pins.Shows(s.dp - 6, Low(b)))
          case 4 => s.dp == 11 && s.hAcc == High(b) && s.pins.Shows(4, Low(b))
          case 5 => s.dp == 11
          case _ => false)
  }

  predicate Counters(t: seq<Op>, s: State) {
    && s.hk <= |t| && s.dk <= |t|
    && (s.hk == s.dk ==> if s.hk == |t| then s.hp == 0 && s.dp == 0 && !s.strobe && !s.ack
                         else Together(t[s.hk], s))
    // The device has dropped ack on the last byte of a request; the host has yet to see it.
    && (s.dk == s.hk + 1 ==> t[s.hk].ToDevice? && s.hp == 3 && !s.strobe && !s.ack &&
                             if s.dk < |t| && t[s.dk].ToHost? then s.dp <= 4 && s.pins.Shows(s.dp, High(t[s.dk].b))
                             else s.dp == 0)
    // The host has dropped strobe on the last byte of a reply; the device has yet to see it.
    && (s.hk == s.dk + 1 ==> t[s.dk].ToHost? && s.dp == 11 && s.hp == 0 && !s.strobe && !s.ack)
    && s.hk <= s.dk + 1 && s.dk <= s.hk + 1
  }

  predicate Received(t: seq<Op>, s: State)
    requires s.hk <= |t| && s.dk <= |t|
  {
    && s.hostGot == HostBytes(t[..s.hk]) +
         (if s.hk < |t| && t[s.hk].ToHost? && s.hp == 5 then [t[s.hk].b] else [])
    && s.deviceGot == DeviceBytes(t[..s.dk]) +
         (if s.dk < |t| && t[s.dk].ToDevice? && s.dp == 5 then [t[s.dk].b] else [])
  }

  predicate Inv(t: seq<Op>, s: State) {
    Counters(t, s) && Received(t, s)
  }

  lemma InitialInv(t: seq<Op>, s: State)
    requires Initial(s)
    ensures Inv(t, s)
  {
    assert t[..0] == [];
  }

  lemma HostKeepsCounters(t: seq<Op>, s: State)
    requires Counters(t, s) && Disciplined(t, s, Host)
    ensures Counters(t, HostStep(t, s))
  {
    if s.hk < |t| {
      PinsShow(s.pins, High(t[s.hk].b));
      PinsShow(s.pins, Low(t[s.hk].b));
    }
  }

  lemma DeviceKeepsCounters(t: seq<Op>, s: State)
    requires Counters(t, s) && Disciplined(t, s, Device)
    ensures Counters(t, DeviceStep(t, s))
  {
  }

  lemma HostKeepsReceived(t: seq<Op>, s: State)
    requires Inv(t, s) && Disciplined(t, s, Host)
    ensures s.hk < |t| ==> Received(t, HostStep(t, s))
  {
    if s.hk < |t| {
      BytesUpTo(t, s.hk);
      PinsShow(s.pins, Low(t[s.hk].b));
    }
  }

  lemma DeviceKeepsReceived(t: seq<Op>, s: State)
    requires Inv(t, s) && Disciplined(t, s, Device)
    ensures s.dk < |t| ==> Received(t, DeviceStep(t, s))
  {
    if s.dk < |t| {
      BytesUpTo(t, s.dk);
    }
  }

  lemma StepKeepsInv(t: seq<Op>, s: State, a: Actor)
    requires Inv(t, s) && Disciplined(t, s, a)
    ensures Inv(t, Step(t, s, a))
  {
    if a == Host {
      HostKeepsCounters(t, s);
      HostKeepsReceived(t, s);
    } else {
      DeviceKeepsCounters(t, s);
      DeviceKeepsReceived(t, s);
    }
  }

  lemma {:induction false} RunKeepsInv(t: seq<Op>, s: State, schedule: seq<Actor>)
    requires Inv(t, s) && DisciplinedRun(t, s, schedule)
    ensures Inv(t, Run(t, s, schedule))
    decreases |schedule|
  {
    if schedule != [] {
      StepKeepsInv(t, s, schedule[0]);
      RunKeepsInv(t, Step(t, s, schedule[0]), schedule[1..]);
    }
  }

  // ----------------------------------------------------------------- safety

  lemma {:induction false} BytesArePrefixes(t: seq<Op>, k: nat)
    requires k <= |t|
    ensures HostBytes(t[..k]) <= HostBytes(t) && DeviceBytes(t[..k]) <= DeviceBytes(t)
    decreases |t| - k
  {
    if k < |t| {
      BytesUpTo(t, k);
      BytesArePrefixes(t, k + 1);
    } else {
      assert t[..k] == t;
    }
  }

  /**
    Safety over every disciplined interleaving: each side holds a prefix of what the other
    sent, and whenever a side is between operations (its byte routine has returned) the other
    side's received bytes are exactly those of the operations it has completed.
   */
  lemma ReceivedIsPrefixOfSent(t: seq<Op>, s0: State, schedule: seq<Actor>)
    requires Initial(s0) && DisciplinedRun(t, s0, schedule)
    ensures var s := Run(t, s0, schedule);
            && s.hk <= |t| && s.dk <= |t| && s.hk <= s.dk + 1 && s.dk <= s.hk + 1
            && s.hostGot <= HostBytes(t) && s.deviceGot <= DeviceBytes(t)
            && (s.hp == 0 ==> s.deviceGot == DeviceBytes(t[..s.hk]))
            && (s.dp == 0 ==> s.hostGot == HostBytes(t[..s.dk]))
  {
    InitialInv(t, s0);
    RunKeepsInv(t, s0, schedule);
    HostGotPrefix(t, Run(t, s0, schedule));
    DeviceGotPrefix(t, Run(t, s0, schedule));
    BetweenCalls(t, Run(t, s0, schedule));
  }

  lemma BetweenCalls(t: seq<Op>, s: State)
    requires Inv(t, s)
    ensures s.hp == 0 ==> s.deviceGot == DeviceBytes(t[..s.hk])
    ensures s.dp == 0 ==> s.hostGot == HostBytes(t[..s.dk])
  {
    if s.hk < |t| { BytesUpTo(t, s.hk); }
    if s.dk < |t| { BytesUpTo(t, s.dk); }
  }

  lemma HostGotPrefix(t: seq<Op>, s: State)
    requires Inv(t, s)
    ensures s.hostGot <= HostBytes(t)
  {
    BytesArePrefixes(t, s.hk);
    if s.hk < |t| { BytesUpTo(t, s.hk); BytesArePrefixes(t, s.hk + 1); }
  }

  lemma DeviceGotPrefix(t: seq<Op>, s: State)
    requires Inv(t, s)
    ensures s.deviceGot <= DeviceBytes(t)
  {
    BytesArePrefixes(t, s.dk);
    if s.dk < |t| { BytesUpTo(t, s.dk); BytesArePrefixes(t, s.dk + 1); }
  }

  /** No torn sample: when a side is about to sample, the other is not changing its data lines,
      and they show the nibble due. */
  lemma SamplesAreStable(t: seq<Op>, s0: State, schedule: seq<Actor>)
    requires Initial(s0) && DisciplinedRun(t, s0, schedule)
    ensures var s := Run(t, s0, schedule);
            s.hk < |t| && t[s.hk].ToHost? ==>
              && (s.hp == 1 ==> s.dk == s.hk && s.dp == 5 && s.pins.Value() == t[s.hk].b / 16)
              && (s.hp == 4 ==> s.dk == s.hk && s.dp == 11 && s.pins.Value() == t[s.hk].b % 16)
    ensures var s := Run(t, s0, schedule);
            s.dk < |t| && t[s.dk].ToDevice? ==>
              && (s.dp == 1 ==> s.hk == s.dk && s.hp == 1 && s.strobe && s.data == t[s.dk].b / 16)
              && (s.dp == 4 ==> s.hk == s.dk && s.hp == 3 && !s.strobe && s.data == t[s.dk].b % 16)
  {
    InitialInv(t, s0);
    RunKeepsInv(t, s0, schedule);
    var s := Run(t, s0, schedule);
    if s.hk < |t| {
      PinsShow(s.pins, High(t[s.hk].b));
      PinsShow(s.pins, Low(t[s.hk].b));
    }
  }

  // --------------------------------------------------------------- progress

  /** Steps other than polls that both sides still have to take from operation k on. */
  function HostWork(t: seq<Op>, k: nat): nat
    decreases |t| - k
  {
    if k >= |t| then 0 else (if t[k].ToDevice? then 4 else 6) + HostWork(t, k + 1)
  }

  function DeviceWork(t: seq<Op>, k: nat): nat
    decreases |t| - k
  {
    if k >= |t| then 0 else (if t[k].ToDevice? then 6 else 12) + DeviceWork(t, k + 1)
  }

  function Work(t: seq<Op>, s: State): int {
    HostWork(t, s.hk) - s.hp + DeviceWork(t, s.dk) - s.dp
  }

  /** A step is a poll that leaves everything as it was, or it does exactly one unit of work. */
  lemma StepDoesWork(t: seq<Op>, s: State, a: Actor)
    requires Inv(t, s) && Disciplined(t, s, a)
    ensures Step(t, s, a) == s || Work(t, Step(t, s, a)) == Work(t, s) - 1
  {
  }

  lemma WorkIsPositive(t: seq<Op>, s: State)
    requires Inv(t, s)
    ensures Work(t, s) >= 0
    ensures Work(t, s) == 0 ==> Finished(t, s)
  {
  }

  /** A side whose next step is allowed and is not an unsuccessful poll. */
  predicate CanMove(t: seq<Op>, s: State, a: Actor) {
    Disciplined(t, s, a) && Step(t, s, a) != s
  }

  /** No deadlock. */
  lemma SomeoneCanMove(t: seq<Op>, s: State)
    requires Inv(t, s) && !Finished(t, s)
    ensures CanMove(t, s, Host) || CanMove(t, s, Device)
  {
  }

  lemma {:induction false} WorkNeverGrows(t: seq<Op>, s: State, schedule: seq<Actor>)
    requires Inv(t, s) && DisciplinedRun(t, s, schedule)
    ensures Work(t, Run(t, s, schedule)) <= Work(t, s)
    decreases |schedule|
  {
    if schedule != [] {
      StepKeepsInv(t, s, schedule[0]);
      StepDoesWork(t, s, schedule[0]);
      WorkNeverGrows(t, Step(t, s, schedule[0]), schedule[1..]);
    }
  }

  lemma {:induction false} MoverMoves(t: seq<Op>, s: State, schedule: seq<Actor>, a: Actor)
    requires Inv(t, s) && DisciplinedRun(t, s, schedule)
    requires a in schedule && CanMove(t, s, a)
    ensures Work(t, Run(t, s, schedule)) < Work(t, s)
    decreases |schedule|
  {
    var s1 := Step(t, s, schedule[0]);
    StepKeepsInv(t, s, schedule[0]);
    StepDoesWork(t, s, schedule[0]);
    if s1 == s {
      MoverMoves(t, s, schedule[1..], a);
    } else {
      WorkNeverGrows(t, s1, schedule[1..]);
    }
  }

  lemma {:induction false} RunSplits(t: seq<Op>, s: State, a: seq<Actor>, b: seq<Actor>)
    ensures Run(t, s, a + b) == Run(t, Run(t, s, a), b)
    ensures DisciplinedRun(t, s, a + b) <==> DisciplinedRun(t, s, a) && DisciplinedRun(t, Run(t, s, a), b)
    decreases |a|
  {
    if a == [] {
      assert a + b == b;
    } else {
      assert (a + b)[1..] == a[1..] + b;
      RunSplits(t, Step(t, s, a[0]), a[1..], b);
    }
  }

  /** A fair schedule: rounds in each of which both sides take at least one step. */
  predicate Fair(rounds: seq<seq<Actor>>) {
    forall r :: r in rounds ==> Host in r && Device in r
  }

  function Flatten(rounds: seq<seq<Actor>>): seq<Actor> {
    if rounds == [] then [] else rounds[0] + Flatten(rounds[1..])
  }

  lemma {:induction false} FairRoundsFinish(t: seq<Op>, s: State, rounds: seq<seq<Actor>>)
    requires Inv(t, s) && Fair(rounds) && |rounds| >= Work(t, s)
    requires DisciplinedRun(t, s, Flatten(rounds))
    ensures Finished(t, Run(t, s, Flatten(rounds)))
    decreases |rounds|
  {
    WorkIsPositive(t, s);
    if Finished(t, s) {
      FinishedStays(t, s, Flatten(rounds));
    } else {
      var r, rest := rounds[0], Flatten(rounds[1..]);
      RunSplits(t, s, r, rest);
      SomeoneCanMove(t, s);
      MoverMoves(t, s, r, if CanMove(t, s, Host) then Host else Device);
      RunKeepsInv(t, s, r);
      FairRoundsFinish(t, Run(t, s, r), rounds[1..]);
    }
  }

  lemma {:induction false} FinishedStays(t: seq<Op>, s: State, schedule: seq<Actor>)
    requires Finished(t, s)
    ensures Run(t, s, schedule) == s && DisciplinedRun(t, s, schedule)
    decreases |schedule|
  {
    if schedule != [] {
      FinishedStays(t, s, schedule[1..]);
    }
  }

  // ------------------------------------------------- the turn assumption, exactly

  /** The two ways a turn can go wrong: each side polls for a level the other will never give. */
  predicate Stuck(t: seq<Op>, s: State) {
    && s.hk < |t| && s.dk < |t| && t[s.hk].ToDevice? && t[s.dk].ToHost?
    && ((s.hp == 1 && !s.ack && s.dp == 11 && s.strobe) || (s.hp == 3 && s.ack && s.dp == 5 && !s.strobe))
  }

  lemma {:induction false} StuckForever(t: seq<Op>, s: State, schedule: seq<Actor>)
    requires Stuck(t, s)
    ensures Run(t, s, schedule) == s && !Finished(t, s)
    decreases |schedule|
  {
    if schedule != [] {
      StuckForever(t, s, schedule[1..]);
    }
  }

  lemma UndisciplinedSticks(t: seq<Op>, s: State, a: Actor)
    requires Inv(t, s) && !Disciplined(t, s, a)
    ensures Stuck(t, Step(t, s, a))
  {
  }

  lemma {:induction false} FinishingNeedsDiscipline(t: seq<Op>, s: State, schedule: seq<Actor>)
    requires Inv(t, s) && Finished(t, Run(t, s, schedule))
    ensures DisciplinedRun(t, s, schedule)
    decreases |schedule|
  {
    if schedule != [] {
      var s1 := Step(t, s, schedule[0]);
      if !Disciplined(t, s, schedule[0]) {
        UndisciplinedSticks(t, s, schedule[0]);
        StuckForever(t, s1, schedule[1..]);
      }
      StepKeepsInv(t, s, schedule[0]);
      FinishingNeedsDiscipline(t, s1, schedule[1..]);
    }
  }

  /**
    Main result. Under any fair schedule long enough for the session, the session completes
    exactly when the schedule respects the turn assumption; it then ends with both lines low
    and every byte delivered in both directions.
   */
  lemma SessionCompletesIffDisciplined(t: seq<Op>, s0: State, rounds: seq<seq<Actor>>)
    requires Initial(s0) && Fair(rounds) && |rounds| >= Work(t, s0)
    ensures var s := Run(t, s0, Flatten(rounds));
            && (Finished(t, s) <==> DisciplinedRun(t, s0, Flatten(rounds)))
            && (Finished(t, s) ==>
                  (!s.strobe && !s.ack && s.hostGot == HostBytes(t) && s.deviceGot == DeviceBytes(t)))
  {
    InitialInv(t, s0);
    var s := Run(t, s0, Flatten(rounds));
    if DisciplinedRun(t, s0, Flatten(rounds)) {
      FairRoundsFinish(t, s0, rounds);
    }
    if Finished(t, s) {
      FinishingNeedsDiscipline(t, s0, Flatten(rounds));
      RunKeepsInv(t, s0, Flatten(rounds));
      assert t[..|t|] == t;
    }
  }

  /** A burst: all bytes in one direction. */
  predicate OneWay(t: seq<Op>) {
    (forall k :: 0 <= k < |t| ==> t[k].ToDevice?) || (forall k :: 0 <= k < |t| ==> t[k].ToHost?)
  }

  lemma {:induction false} BurstIsDisciplined(t: seq<Op>, s: State, schedule: seq<Actor>)
    requires Inv(t, s) && OneWay(t)
    ensures DisciplinedRun(t, s, schedule)
    decreases |schedule|
  {
    if schedule != [] {
      assert Disciplined(t, s, schedule[0]);
      StepKeepsInv(t, s, schedule[0]);
      BurstIsDisciplined(t, Step(t, s, schedule[0]), schedule[1..]);
    }
  }

  /** Bursts are race-free: no assumption on the interleaving beyond fairness. */
  lemma BurstCompletes(t: seq<Op>, s0: State, rounds: seq<seq<Actor>>)
    requires Initial(s0) && OneWay(t) && Fair(rounds) && |rounds| >= Work(t, s0)
    ensures var s := Run(t, s0, Flatten(rounds));
            Finished(t, s) && !s.strobe && !s.ack &&
            s.hostGot == HostBytes(t) && s.deviceGot == DeviceBytes(t)
  {
    InitialInv(t, s0);
    BurstIsDisciplined(t, s0, Flatten(rounds));
    SessionCompletesIffDisciplined(t, s0, rounds);
  }

  /** Turns are not race-free: a reply raised before the host's closing poll hangs both sides. */
  lemma ReplyTurnCanHang(b: byte, c: byte, s0: State) returns (schedule: seq<Actor>)
    requires Initial(s0)
    ensures Stuck([ToDevice(b), ToHost(c)], Run([ToDevice(b), ToHost(c)], s0, schedule))
  {
    var t := [ToDevice(b), ToHost(c)];
    var s1 := RunTo(t, s0, [], s0, Host, 1);
    schedule := Repeat([], Host, 1);
    var s2 := RunTo(t, s0, schedule, s1, Device, 3);
    schedule := Repeat(schedule, Device, 3);
    var s3 := RunTo(t, s0, schedule, s2, Host, 2);
    schedule := Repeat(schedule, Host, 2);
    var s4 := RunTo(t, s0, schedule, s3, Device, 8);
    schedule := Repeat(schedule, Device, 8);
  }

  /** The other turn too: a request raised before the device's closing poll. */
  lemma RequestTurnCanHang(b: byte, c: byte, s0: State) returns (schedule: seq<Actor>)
    requires Initial(s0)
    ensures Stuck([ToHost(b), ToDevice(c)], Run([ToHost(b), ToDevice(c)], s0, schedule))
  {
    var t := [ToHost(b), ToDevice(c)];
    var s1 := RunTo(t, s0, [], s0, Device, 5);
    schedule := Repeat([], Device, 5);
    var s2 := RunTo(t, s0, schedule, s1, Host, 3);
    schedule := Repeat(schedule, Host, 3);
    var s3 := RunTo(t, s0, schedule, s2, Device, 6);
    schedule := Repeat(schedule, Device, 6);
    var s4 := RunTo(t, s0, schedule, s3, Host, 4);
    schedule := Repeat(schedule, Host, 4);
  }

  function Repeat(before: seq<Actor>, a: Actor, n: nat): seq<Actor>
    decreases n
  {
    if n == 0 then before else Repeat(before + [a], a, n - 1)
  }

  function Steps(t: seq<Op>, s: State, a: Actor, n: nat): State
    decreases n
  {
    if n == 0 then s else Steps(t, Step(t, s, a), a, n - 1)
  }

  lemma {:induction false} RunTo(t: seq<Op>, s0: State, before: seq<Actor>, s: State, a: Actor, n: nat)
    returns (s1: State)
    requires Run(t, s0, before) == s
    ensures s1 == Steps(t, s, a, n) && Run(t, s0, Repeat(before, a, n)) == s1
    decreases n
  {
    if n == 0 {
      s1 := s;
    } else {
      RunSplits(t, s0, before, [a]);
      assert Run(t, s, [a]) == Run(t, Step(t, s, a), []);
      s1 := RunTo(t, s0, before + [a], Step(t, s, a), a, n - 1);
    }
  }
}
