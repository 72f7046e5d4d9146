// The three layers together: the driver's calls, the bytes they put on the line, the wires that
// carry them and the device's own command loop.
module FullStack {
  import opened Bytes
  import opened Handshake
  import opened Line
  import opened Protocol
  import opened Host
  import opened Session
  import opened ServerTask

  /** A whole session on the line: in step throughout, nothing unread, nothing half done. */
  ghost predicate Conversation<D>(be: Backend<D>, start: Device<D>, t: seq<Op>, end: Device<D>) {
    && Synchronous(Server(be), start, t) && AtBoundary(end)
    && Fold(Server(be), start, DeviceBytes(t)) == Reaction(end, HostBytes(t))
  }

  /** Any calls of the driver whose sectors the server can compress make such a conversation, and
      their effect is the direct one. */
  method DriverSession<D>(be: Backend<D>, start: Device<D>, qs: seq<Request>)
    returns (answers: seq<Answer>, end: Device<D>, ghost t: seq<Op>)
    requires AtBoundary(start) && SafeSession(be, start.disk, qs) && forall q :: q in qs ==> q.Valid()
    ensures Served(end.disk, answers) == DirectSession(be, start.disk, qs)
    ensures Conversation(be, start, t, end) && DeviceBytes(t) == SessionTalk(be, start.disk, qs)
  {
    var link := new Link(Server(be), start);
    answers := RunSession(be, link, qs);
    end := link.dev;
    t := link.talk.trace;
    assert HostBytes(t) + [] == HostBytes(t);
    assert [] + SessionTalk(be, start.disk, qs) == SessionTalk(be, start.disk, qs);
  }

  // ------------------------------------------------------------ on the wires

  lemma DeviceBytesGrow(t: seq<Op>, j: nat, k: nat)
    requires j <= k <= |t|
    ensures DeviceBytes(t[..j]) <= DeviceBytes(t[..k])
  {
    assert t[..k][..j] == t[..j];
    BytesArePrefixes(t[..k], j);
  }

  /** The first replies of a script follow from the request bytes before the last of them. */
  lemma {:induction false} RepliesAreCaused<S>(step: Machine<S>, start: S, t: seq<Op>, j: nat)
    requires Synchronous(step, start, t) && j <= |t|
    ensures HostBytes(t[..j]) <= Fold(step, start, DeviceBytes(t[..if j == 0 then 0 else j - 1])).out
  {
    if j > 0 {
      var k := j - 1;
      BytesUpTo(t, k);
      SynchronousAt(step, start, t, k);
      if t[k].ToDevice? {
        RepliesAreCaused(step, start, t, k);
        DeviceBytesGrow(t, if k == 0 then 0 else k - 1, k);
        FoldGrows(step, start, DeviceBytes(t[..if k == 0 then 0 else k - 1]), DeviceBytes(t[..k]));
      }
    }
  }

  /** What the two sides hold, in terms of the script: the replies up to j, and the requests
      up to the device's place, which is at most one operation behind j. */
  lemma GotSoFar(t: seq<Op>, s: State) returns (j: nat)
    requires Inv(t, s)
    ensures s.dk <= |t| && j <= |t| && j <= s.dk + 1 && s.hostGot == HostBytes(t[..j])
    ensures DeviceBytes(t[..s.dk]) <= s.deviceGot
    ensures s.dk < |t| && t[s.dk].ToHost? ==> s.deviceGot == DeviceBytes(t[..s.dk])
  {
    j := s.hk;
    if s.hk < |t| && t[s.hk].ToHost? && s.hp == 5 {
      BytesUpTo(t, s.hk);
      j := s.hk + 1;
    }
  }

  /**
    The script is no oracle. At every moment of every disciplined interleaving, all the host has
    received is an answer of the server machine to bytes the device already holds; and a byte the
    device is about to send is the machine's next answer to exactly the bytes it holds.
   */
  lemma EveryReplyIsCaused<S>(step: Machine<S>, start: S, t: seq<Op>, s0: State, schedule: seq<Actor>)
    requires Synchronous(step, start, t) && Initial(s0) && DisciplinedRun(t, s0, schedule)
    ensures var s := Run(t, s0, schedule);
            s.hostGot <= Fold(step, start, s.deviceGot).out
    ensures var s := Run(t, s0, schedule);
            s.dk < |t| && t[s.dk].ToHost? ==>
              HostBytes(t[..s.dk]) + [t[s.dk].b] <= Fold(step, start, s.deviceGot).out
  {
    InitialInv(t, s0);
    RunKeepsInv(t, s0, schedule);
    var s := Run(t, s0, schedule);
    var j := GotSoFar(t, s);
    RepliesAreCaused(step, start, t, j);
    var k := if j == 0 then 0 else j - 1;
    DeviceBytesGrow(t, k, s.dk);
    FoldGrows(step, start, DeviceBytes(t[..k]), s.deviceGot);
    if s.dk < |t| && t[s.dk].ToHost? {
      SynchronousAt(step, start, t, s.dk);
    }
  }

  /**
    From end to end: under any fair schedule that respects the turn assumption, the wires carry
    the whole conversation; the device then has received exactly what the driver sent, and the
    driver exactly what the server answers to that.
   */
  lemma SessionOverWires<D>(be: Backend<D>, start: Device<D>, t: seq<Op>, end: Device<D>,
                            s0: State, rounds: seq<seq<Actor>>)
    requires Conversation(be, start, t, end)
    requires Initial(s0) && Fair(rounds) && |rounds| >= Work(t, s0) && DisciplinedRun(t, s0, Flatten(rounds))
    ensures var s := Run(t, s0, Flatten(rounds));
            && Finished(t, s) && !s.strobe && !s.ack
            && FeedAll(be, start, s.deviceGot) == Reaction(end, s.hostGot)
  {
    SessionCompletesIffDisciplined(t, s0, rounds);
  }

  // ------------------------------------------------------- in the device

  /** The device's loop over lptprotocol_task, given what the driver sent, sends what the driver
      expects and ends on the same disk, without leaving its buffers in between. */
  method ServeConversation<D>(server: LptServer<D>, ghost t: seq<Op>, ghost end: Device<D>)
    requires server.Valid() && server.rx == DeviceBytes(t) && server.tx == []
    requires Conversation(server.be, server.Now(), t, end)
    modifies server, server.buff, server.compressBuff
    ensures server.Valid() && server.rx == [] && server.tx == HostBytes(t) && server.Now() == end
  {
    server.ServeAll();
    assert [] + HostBytes(t) == HostBytes(t);
  }
}
