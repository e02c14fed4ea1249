/** The server as a whole: any number of connections, whose callbacks the TCP stack
    calls in any order, over the one pool of open files. */
module HttpServer {
  import opened Base
  import opened TagScanner
  import opened Tcp
  import opened FileSystem
  import opened Request
  import opened Httpd
  import opened Connection
  import opened History

  // ------------------------------------------------------- connections side by side

  function UsedIn(m: seq<FsSlot>): set<nat> {
    set i: nat | i < |m| && m[i].inuse
  }

  lemma SlotStillHeld(pcb: Pcb, m0: seq<FsSlot>, m: seq<FsSlot>)
    requires HasSlot(pcb, m0) && |m| == |m0|
    requires forall s :: s in Owned(pcb) && s < |m| ==> m[s] == m0[s]
    ensures HasSlot(pcb, m)
  {
    if pcb.arg.Some? && pcb.arg.value.handle.Some? {
      assert pcb.arg.value.handle.value in Owned(pcb);
    }
  }

  ghost function PartsOf(cs: set<Pcb>): set<object>
    reads cs
  {
    set c, o | c in cs && o in Parts(c) :: o
  }

  /** Two connections share neither memory nor a slot of the pool. */
  ghost predicate Apart(c: Pcb, d: Pcb)
    reads c, Parts(c), d, Parts(d)
  {
    Parts(c) !! Parts(d) && Owned(c) !! Owned(d)
  }

  /** Every connection is consistent, no two share anything, and the slots in use are
      exactly those that a connection holds. */
  ghost predicate AllWell(cs: set<Pcb>, fs: FsMemory)
    reads cs, PartsOf(cs), fs.memory
  {
    fs.Valid() && fs.memory as object !in PartsOf(cs) &&
    (forall c :: c in cs ==> Consistent(c, fs)) &&
    (forall c, d :: c in cs && d in cs && c != d ==> Apart(c, d)) &&
    (forall s :: s in fs.InUse() <==> exists c :: c in cs && s in Owned(c))
  }

  /** The connections `cs` are well with the pool `m0`, given that one more connection
      holds the slots `own0`. */
  ghost predicate WellBeside(cs: set<Pcb>, m0: seq<FsSlot>, own0: set<nat>)
    reads cs, PartsOf(cs)
  {
    (forall c :: c in cs ==> Sound(c) && HasSlot(c, m0) && Owned(c) !! own0) &&
    (forall c, d :: c in cs && d in cs && c != d ==> Apart(c, d)) &&
    (forall s :: s in UsedIn(m0) <==> s in own0 || exists c :: c in cs && s in Owned(c))
  }

  lemma PartsAllocated(cs: set<Pcb>)
    ensures forall o :: o in PartsOf(cs) ==> allocated(o)
  {
  }

  lemma TakeOut(cs: set<Pcb>, pcb: Pcb, fs: FsMemory)
    requires AllWell(cs, fs) && pcb in cs
    ensures Consistent(pcb, fs) && WellBeside(cs - {pcb}, fs.memory[..], Owned(pcb))
    ensures Parts(pcb) !! PartsOf(cs - {pcb}) && PartsOf(cs) == Parts(pcb) + PartsOf(cs - {pcb})
    ensures fs.Valid() && fs.memory as object !in PartsOf(cs) && pcb in Parts(pcb)
    ensures forall c :: c in cs - {pcb} ==> c as object in PartsOf(cs - {pcb})
  {
    hide Owned, Sound, HasSlot;
    forall c | c in cs - {pcb} ensures Sound(c) && HasSlot(c, fs.memory[..]) && Owned(c) !! Owned(pcb) {
      assert Apart(c, pcb);
    }
    forall s ensures s in UsedIn(fs.memory[..]) <==>
                     s in Owned(pcb) || exists c :: c in cs - {pcb} && s in Owned(c)
    {
      assert s in UsedIn(fs.memory[..]) <==> s in fs.InUse();
    }
    forall c | c in cs - {pcb} ensures Parts(pcb) !! Parts(c) { assert Apart(c, pcb); }
  }

  /** One connection has made a step that touched only its own slots and kept apart
      from the others `cs`: all is well again.  `m0` is the pool before the step, and
      `own0` the slots that the connection then held. */
  lemma PutBack(cs: set<Pcb>, pcb: Pcb, fs: FsMemory, m0: seq<FsSlot>, own0: set<nat>)
    requires fs.Valid() && WellBeside(cs, m0, own0) && Consistent(pcb, fs)
    requires Parts(pcb) !! PartsOf(cs) && fs.memory as object !in PartsOf(cs) + Parts(pcb)
    requires |m0| == fs.memory.Length && fs.InUse() == (UsedIn(m0) - own0) + Owned(pcb)
    requires forall s :: s in Owned(pcb) ==> s in own0 || s !in UsedIn(m0)
    requires forall s :: s in UsedIn(m0) && s !in own0 && s < |m0| ==> fs.memory[s] == m0[s]
    ensures AllWell(cs + {pcb}, fs)
  {
    hide Consistent, Owned, Sound, HasSlot, Parts;
    forall c | c in cs ensures Consistent(c, fs) && Apart(c, pcb) {
      assert forall s :: s in Owned(c) ==> s in UsedIn(m0) && s !in own0;
      SlotStillHeld(c, m0, fs.memory[..]);
      ConsistentBesides(c, pcb, fs);
      assert forall o :: o in Parts(c) ==> o in PartsOf(cs);
    }
    forall s ensures s in fs.InUse() <==> exists c :: c in cs + {pcb} && s in Owned(c) {
      assert s in UsedIn(m0) <==> s in own0 || exists c :: c in cs && s in Owned(c);
    }
    assert PartsOf(cs + {pcb}) == PartsOf(cs) + Parts(pcb);
    forall c, d | c in cs + {pcb} && d in cs + {pcb} && c != d ensures Apart(c, d) {
      if c == pcb { assert Apart(d, pcb); } else if d == pcb { assert Apart(c, pcb); }
    }
  }

  lemma AllBeside(cs: set<Pcb>, fs: FsMemory)
    requires AllWell(cs, fs)
    ensures WellBeside(cs, fs.memory[..], {}) && fs.Valid() && fs.memory as object !in PartsOf(cs)
    ensures forall c :: c in cs ==> c as object in PartsOf(cs)
  {
    hide Owned, Sound, HasSlot;
    forall c | c in cs ensures Sound(c) && HasSlot(c, fs.memory[..]) { assert Consistent(c, fs); }
    forall c | c in cs ensures c as object in PartsOf(cs) { assert c in Parts(c); }
    forall s ensures s in UsedIn(fs.memory[..]) <==> exists c :: c in cs && s in Owned(c) {
      assert s in UsedIn(fs.memory[..]) <==> s in fs.InUse();
    }
  }

  lemma ConsistentBesides(c: Pcb, pcb: Pcb, fs: FsMemory)
    requires Consistent(pcb, fs) && Sound(c) && HasSlot(c, fs.memory[..])
    ensures Consistent(c, fs)
  {
    hide Sound, HasSlot;
  }

  // ---------------------------------------------------------------------- one event

  /** What the stack does on a connection, if it may: nothing is delivered where no
      callback is registered, or once the connection is gone. */
  method Deliver(pcb: Pcb, e: Event, fs: FsMemory, cgi: CgiConfig) returns (hung: bool)
    requires Consistent(pcb, fs) && !e.Accept?
    modifies pcb, Parts(pcb), fs.memory
    ensures Consistent(pcb, fs) && OwnSlotsOnly(pcb, fs)
    ensures Stepped(old(FaceOf(pcb)), FaceOf(pcb), e, old(fs.IsFull()), hung, cgi, fs.root)
    ensures pcb.arg == old(pcb.arg) || (old(pcb.arg).Some? && GivenUp(pcb, old(pcb.arg).value))
  {
    hide Stepped, HttpState.Live, HttpState.Stream;
    hung := false;
    if !pcb.alive || (e.Recv? && (!pcb.recvSet || !BringsText(e))) || (e.Sent? && !pcb.sentSet) {
      NotTold(FaceOf(pcb), e, fs.IsFull(), cgi, fs.root);
      return;
    }
    match e {
      case Accept(_, _, _) =>
      case Recv(_, _, _) => hung := Receive(pcb, e, fs, cgi);
      case Sent(_) => hung := Acknowledge(pcb, e, fs, cgi);
      case Poll(_) => hung := PollOnce(pcb, e, fs, cgi);
      case Abort(_) => Break(pcb, e, fs, cgi);
      case Elapse(_) => Wait(pcb, e, fs, cgi);
    }
  }

  /** A packet comes in, or the end of the connection. */
  method Receive(pcb: Pcb, e: Event, fs: FsMemory, cgi: CgiConfig) returns (hung: bool)
    requires Consistent(pcb, fs) && e.Recv? && BringsText(e) && pcb.recvSet
    modifies pcb, Parts(pcb), fs.memory
    ensures Consistent(pcb, fs) && OwnSlotsOnly(pcb, fs)
    ensures Stepped(old(FaceOf(pcb)), FaceOf(pcb), e, old(fs.IsFull()), hung, cgi, fs.root)
    ensures pcb.arg == old(pcb.arg) || GivenUp(pcb, old(pcb.arg).value)
  {
    hide Stepped, HttpState.Live, HttpState.Stream;
    if e.packet == None {
      hung := ReceiveEnd(pcb, e, fs, cgi);
    } else {
      hung := ReceivePacket(pcb, e, fs, cgi);
    }
  }

  method ReceiveEnd(pcb: Pcb, e: Event, fs: FsMemory, cgi: CgiConfig) returns (hung: bool)
    requires Consistent(pcb, fs) && e.Recv? && e.packet == None && pcb.recvSet
    modifies pcb, Parts(pcb), fs.memory
    ensures Consistent(pcb, fs) && OwnSlotsOnly(pcb, fs)
    ensures Stepped(old(FaceOf(pcb)), FaceOf(pcb), e, old(fs.IsFull()), hung, cgi, fs.root)
    ensures pcb.arg == old(pcb.arg) || GivenUp(pcb, old(pcb.arg).value)
  {
    hide HttpState.Serving, HttpState.Stream, IsGet, AnswerTo, Find, PageStream;
    hung := HttpRecv(pcb, fs, cgi, null, e.ok);
  }

  method ReceivePacket(pcb: Pcb, e: Event, fs: FsMemory, cgi: CgiConfig) returns (hung: bool)
    requires Consistent(pcb, fs) && e.Recv? && e.packet.Some? && BringsText(e) && pcb.recvSet
    modifies pcb, Parts(pcb), fs.memory
    ensures Consistent(pcb, fs) && OwnSlotsOnly(pcb, fs)
    ensures Stepped(old(FaceOf(pcb)), FaceOf(pcb), e, old(fs.IsFull()), hung, cgi, fs.root)
    ensures pcb.arg == old(pcb.arg) || GivenUp(pcb, old(pcb.arg).value)
  {
    hide Stepped, HttpState.Live, HttpState.Stream;
    var s := e.packet.value;
    var p := new char[|s|](i requires 0 <= i < |s| => s[i]);
    assert p[..] == s;
    if e.ok && pcb.arg.Some? && pcb.arg.value.handle == None {
      hung := ReceiveText(pcb, e, fs, cgi, p);
    } else {
      hung := ReceiveNothing(pcb, e, fs, cgi, p);
    }
  }

  /** A packet that is not looked at. */
  method ReceiveNothing(pcb: Pcb, e: Event, fs: FsMemory, cgi: CgiConfig, p: array<char>) returns (hung: bool)
    requires Consistent(pcb, fs) && e.Recv? && e.packet.Some? && pcb.recvSet
    requires p[..] == e.packet.value && p.Length >= 9 && p as object !in Parts(pcb)
    requires !e.ok || pcb.arg.value.handle.Some?
    modifies pcb, Parts(pcb), fs.memory, p
    ensures Consistent(pcb, fs) && OwnSlotsOnly(pcb, fs) && pcb.arg == old(pcb.arg)
    ensures Stepped(old(FaceOf(pcb)), FaceOf(pcb), e, old(fs.IsFull()), hung, cgi, fs.root)
  {
    hide HttpState.Serving, HttpState.Stream, HttpState.Untouched, IsGet, AnswerTo, Find, PageStream;
    hung := HttpRecv(pcb, fs, cgi, p, e.ok);
  }

  /** A packet that may be a request. */
  method ReceiveText(pcb: Pcb, e: Event, fs: FsMemory, cgi: CgiConfig, p: array<char>) returns (hung: bool)
    requires Consistent(pcb, fs) && e.Recv? && e.packet.Some? && pcb.recvSet
    requires p[..] == e.packet.value && p.Length >= 9 && p as object !in Parts(pcb)
    requires e.ok && pcb.arg.Some? && pcb.arg.value.handle == None
    modifies pcb, Parts(pcb), fs.memory, p
    ensures Consistent(pcb, fs) && OwnSlotsOnly(pcb, fs)
    ensures Stepped(old(FaceOf(pcb)), FaceOf(pcb), e, old(fs.IsFull()), hung, cgi, fs.root)
    ensures pcb.arg == old(pcb.arg) || GivenUp(pcb, old(pcb.arg).value)
  {
    hide HttpState.Serving, HttpState.Stream, HttpState.Untouched, IsGet, AnswerTo, Find, PageStream;
    assert e in [e];
    hung := HttpRecv(pcb, fs, cgi, p, e.ok);
  }

  method Acknowledge(pcb: Pcb, e: Event, fs: FsMemory, cgi: CgiConfig) returns (hung: bool)
    requires Consistent(pcb, fs) && e.Sent? && pcb.alive && pcb.sentSet
    modifies pcb, Parts(pcb), fs.memory
    ensures Consistent(pcb, fs) && OwnSlotsOnly(pcb, fs)
    ensures Stepped(old(FaceOf(pcb)), FaceOf(pcb), e, old(fs.IsFull()), hung, cgi, fs.root)
    ensures pcb.arg == old(pcb.arg) || (old(pcb.arg).Some? && GivenUp(pcb, old(pcb.arg).value))
  {
    hide HttpState.Live, HttpState.Stream, HttpState.WindowStall, Answers, BringsGet;
    hung := HttpSent(pcb, fs);
  }

  method PollOnce(pcb: Pcb, e: Event, fs: FsMemory, cgi: CgiConfig) returns (hung: bool)
    requires Consistent(pcb, fs) && e.Poll? && pcb.alive
    modifies pcb, Parts(pcb), fs.memory
    ensures Consistent(pcb, fs) && OwnSlotsOnly(pcb, fs)
    ensures Stepped(old(FaceOf(pcb)), FaceOf(pcb), e, old(fs.IsFull()), hung, cgi, fs.root)
    ensures pcb.arg == old(pcb.arg) || (old(pcb.arg).Some? && GivenUp(pcb, old(pcb.arg).value))
  {
    hide HttpState.Serving, HttpState.Stream, HttpState.WindowStall, Answers, BringsGet;
    hung := HttpPoll(pcb, fs);
  }

  method Break(pcb: Pcb, e: Event, fs: FsMemory, cgi: CgiConfig)
    requires Consistent(pcb, fs) && e.Abort? && pcb.alive
    modifies pcb, Parts(pcb), fs.memory
    ensures Consistent(pcb, fs) && OwnSlotsOnly(pcb, fs)
    ensures Stepped(old(FaceOf(pcb)), FaceOf(pcb), e, old(fs.IsFull()), false, cgi, fs.root)
    ensures pcb.arg == old(pcb.arg) || (old(pcb.arg).Some? && GivenUp(pcb, old(pcb.arg).value))
  {
    hide HttpState.Serving, HttpState.Stream, Answers, BringsGet;
    Fail(pcb, fs);
  }

  method Wait(pcb: Pcb, e: Event, fs: FsMemory, cgi: CgiConfig)
    requires Consistent(pcb, fs) && e.Elapse? && pcb.alive
    modifies pcb`sndbuf, pcb`writable
    ensures Consistent(pcb, fs) && OwnSlotsOnly(pcb, fs)
    ensures Stepped(old(FaceOf(pcb)), FaceOf(pcb), e, old(fs.IsFull()), false, cgi, fs.root)
  {
    hide HttpState.Live, HttpState.Stream, Answers, BringsGet;
    pcb.Elapse();
  }

  // ---------------------------------------------------------------------- the server

  ghost function StateParts(hs: HttpState): set<object> {
    {hs as object} + hs.Arrays()
  }

  /** The state has been freed and left alone since, and nothing in `parts` is its. */
  ghost predicate HasFreed(state: Option<HttpState>, parts: set<object>)
    reads match state case None => {} case Some(h) => StateParts(h)
  {
    match state case None => false case Some(h) => h.freed && h.Untouched() && StateParts(h) !! parts
  }

  /** One event on the connection `pcb`, with all of the connections in view. */
  method StepBeside(ghost cs: set<Pcb>, pcb: Pcb, e: Event, fs: FsMemory, cgi: CgiConfig) returns (hung: bool)
    requires AllWell(cs, fs) && pcb in cs && !e.Accept?
    modifies pcb, Parts(pcb), fs.memory
    ensures AllWell(cs, fs) && PartsOf(cs) <= old(PartsOf(cs))
    ensures Stepped(old(FaceOf(pcb)), FaceOf(pcb), e, old(fs.IsFull()), hung, cgi, fs.root)
    ensures forall c :: c in cs && c != pcb ==> FaceOf(c) == old(FaceOf(c))
    ensures FaceOf(pcb).state == old(FaceOf(pcb).state) || HasFreed(old(FaceOf(pcb).state), PartsOf(cs) + {fs.memory})
  {
    hide AllWell, WellBeside, Consistent, Owned, PartsOf, Stepped, HttpState.Untouched;
    ghost var others := cs - {pcb};
    ghost var parts := PartsOf(others);
    PartsAllocated(others);
    TakeOut(cs, pcb, fs);
    ghost var m0, own0 := fs.memory[..], Owned(pcb);
    forall c | c in others ensures Parts(c) <= parts { PartIn(others, c); }
    hung := Deliver(pcb, e, fs, cgi);
    assert unchanged(parts);
    assert old(fs.InUse()) == UsedIn(m0);
    PutBack(others, pcb, fs, m0, own0);
    assert others + {pcb} == cs;
    TakeOut(cs, pcb, fs);
  }

  /** A new connection beside `cs`. */
  method AcceptBeside(ghost cs: set<Pcb>, mss: Mss, cfg: SsiConfig, fs: FsMemory, granted: bool)
    returns (pcb: Pcb)
    requires AllWell(cs, fs)
    ensures fresh(Parts(pcb)) && AllWell(cs + {pcb}, fs) && PartsOf(cs + {pcb}) == PartsOf(cs) + Parts(pcb)
    ensures FaceOf(pcb).state == pcb.arg && IsNew(FaceOf(pcb), cfg, granted)
  {
    hide AllWell, WellBeside, Consistent, Owned, PartsOf;
    ghost var parts := PartsOf(cs);
    PartsAllocated(cs);
    AllBeside(cs, fs);
    ghost var m0 := fs.memory[..];
    pcb := new TcpPcb<HttpState>(mss);
    HttpAccept(pcb, cfg, fs, granted);
    assert fs.InUse() == UsedIn(m0);
    assert WellBeside(cs, m0, {});
    PutBack(cs, pcb, fs, m0, {});
    TakeOut(cs + {pcb}, pcb, fs);
    assert cs + {pcb} - {pcb} == cs;
  }

  lemma PartIn(cs: set<Pcb>, c: Pcb)
    requires c in cs
    ensures c in PartsOf(cs) && Parts(c) <= PartsOf(cs)
  {
    assert c in Parts(c);
  }

  ghost function ArraysOf(dead: set<HttpState>): set<object> {
    set h, o | h in dead && o in h.Arrays() :: o
  }

  /** The states `dead` have been freed and left alone since, and nothing in `parts` is
      theirs. */
  ghost predicate AtRest(dead: set<HttpState>, parts: set<object>)
    reads dead, ArraysOf(dead)
  {
    forall h :: h in dead ==> h.freed && h.Untouched() && StateParts(h) !! parts
  }

  lemma OneMoreAtRest(dead: set<HttpState>, h: HttpState, parts: set<object>, parts': set<object>)
    requires AtRest(dead, parts) && parts' <= parts
    requires h.freed && h.Untouched() && StateParts(h) !! parts'
    ensures AtRest(dead + {h}, parts')
  {
    hide HttpState.Untouched, StateParts;
  }

  lemma AtRestStill(dead: set<HttpState>, parts: set<object>, parts': set<object>)
    requires AtRest(dead, parts) && parts' <= parts
    ensures AtRest(dead, parts')
  {
    hide HttpState.Untouched, StateParts;
  }

  lemma AtRestBeside(dead: set<HttpState>, parts: set<object>, more: set<object>)
    requires AtRest(dead, parts) && more !! (set h: HttpState | h in dead :: h as object) && more !! ArraysOf(dead)
    ensures AtRest(dead, parts + more)
  {
    hide HttpState.Untouched;
  }

  /** A connection has the state that it was given, until that is freed. */
  ghost predicate AllKept(faces: seq<Face>, states: seq<Option<HttpState>>, dead: set<HttpState>) {
    |states| == |faces| &&
    forall i :: 0 <= i < |faces| ==>
      faces[i].state == states[i] || (faces[i].state == None && states[i].value in dead)
  }

  /** The connection at `i` has freed its state, which then is among the dead. */
  lemma AllKeptThen(faces: seq<Face>, i: nat, b: Face, states: seq<Option<HttpState>>,
                    dead: set<HttpState>, dead': set<HttpState>)
    requires AllKept(faces, states, dead) && i < |faces| && dead <= dead'
    requires b.state == faces[i].state || (b.state == None && faces[i].state.Some? && faces[i].state.value in dead')
    ensures AllKept(faces[i := b], states, dead')
  {
  }

  ghost predicate Distinct(cs: seq<Pcb>) {
    forall i, j :: 0 <= i < j < |cs| ==> cs[i] != cs[j]
  }

  lemma AllKeptAccept(faces: seq<Face>, f: Face, states: seq<Option<HttpState>>, dead: set<HttpState>)
    requires AllKept(faces, states, dead)
    ensures AllKept(faces + [f], states + [f.state], dead)
  {
  }

  lemma ArraysAllocated(dead: set<HttpState>)
    ensures forall o :: o in ArraysOf(dead) ==> allocated(o)
  {
  }

  ghost function FacesOf(cs: seq<Pcb>): (faces: seq<Face>)
    reads cs, PartsOf(set c | c in cs)
    ensures |faces| == |cs| && forall i :: 0 <= i < |cs| ==> faces[i] == FaceOf(cs[i])
  {
    seq(|cs|, i requires 0 <= i < |cs| reads cs, PartsOf(set c | c in cs) => FaceOf(cs[i]))
  }

  lemma FacesSnoc(cs: seq<Pcb>, pcb: Pcb)
    ensures FacesOf(cs + [pcb]) == FacesOf(cs) + [FaceOf(pcb)]
  {
    hide FaceOf;
  }

  class Server {
    const fs: FsMemory
    const tags: seq<string>
    const cgi: CgiConfig
    var conns: seq<Pcb>
    ghost var states: seq<Option<HttpState>> // the state that each connection was given
    ghost var dead: set<HttpState>           // those of them that have been freed
    ghost var history: seq<Event>            // the run so far

    ghost function Conns(): set<Pcb>
      reads this`conns
    {
      set c | c in conns
    }

    ghost function Faces(): seq<Face>
      reads this`conns, conns, PartsOf(Conns())
    {
      FacesOf(conns)
    }

    ghost predicate Valid()
      reads this, fs.memory, conns, PartsOf(Conns()), dead, ArraysOf(dead)
    {
      AllWell(Conns(), fs) && AllTold(Faces(), history, tags, cgi, fs.root) &&
      AtRest(dead, PartsOf(Conns()) + {fs.memory}) &&
      Distinct(conns) && AllKept(Faces(), states, dead)
    }

    constructor (files: seq<FsData>, tags: seq<string>, cgi: CgiConfig)
      ensures Valid() && conns == [] && history == []
      ensures this.fs.root == files && this.tags == tags && this.cgi == cgi
    {
      this.tags, this.cgi := tags, cgi;
      fs := new FsMemory(files);
      conns, states, dead, history := [], [], {}, [];
    }

    /** What the run so far says of connection `i`: the client has a prefix of what he is
        owed, and that is the stream of the page that answers a request of his; while its
        file is open he has all of it exactly when no byte of the file is left; if the
        server has closed the connection, and not the client, he has all of it; and if he
        has never asked for anything, the fourth poll was the last. */
    lemma EveryClient(i: nat)
      requires Valid() && i < |conns|
      ensures i < |Accepted(tags, history)|
      ensures var c, cfg := conns[i], Accepted(tags, history)[i];
              c.out <= c.due && (c.arg.Some? ==> c.arg.value.cfg == cfg) &&
              (c.request == None ==> c.out == "") &&
              (c.request.Some? ==>
                 Recv(i, c.request, true) in history && Answers(c.request.value, c.due, cfg, cgi, fs.root)) &&
              (c.arg.Some? && c.arg.value.handle.Some? ==> (c.arg.value.left == 0 <==> c.out == c.due)) &&
              (c.alive && c.arg == None && c.request.Some? && Recv(i, None, true) !in history ==> c.out == c.due) &&
              (c.gets == 0 && Sent(i) !in history && Polls(history, i) >= 4 ==> !c.alive)
    {
      hide HttpState.Serving, HttpState.Stream, Answers, Accepted, Polls;
      var c := conns[i];
      assert c in Conns() && Consistent(c, fs);
      assert Told(Faces()[i], i, history, Accepted(tags, history)[i], cgi, fs.root);
      if c.arg.Some? && c.arg.value.handle.Some? {
        c.arg.value.ServedPrefix(c.out);
      }
    }

    /** A connection that was handed a state has it still, or has freed it, and nobody has
        touched it since. */
    lemma EveryState(i: nat)
      requires Valid() && i < |conns|
      ensures |states| == |conns| && (conns[i].arg.Some? ==> conns[i].arg == states[i] && !states[i].value.freed)
      ensures conns[i].arg == None && states[i].Some? ==> states[i].value.freed && states[i].value.Untouched()
    {
      hide HttpState.Serving, HttpState.Stream, HttpState.Untouched, AllTold;
      assert conns[i] in Conns() && Consistent(conns[i], fs);
      assert Faces()[i].state == conns[i].arg;
    }

    /** A slot in use belongs to the one live connection whose handle it is. */
    lemma SlotHasOneOwner(s: nat) returns (c: Pcb)
      requires Valid() && s in fs.InUse()
      ensures c in conns && c.arg.Some? && c.arg.value.handle == Some(s) && !c.arg.value.freed
      ensures forall d :: d in conns && d.arg.Some? && d.arg.value.handle == Some(s) ==> d == c
    {
      hide HttpState.Serving, HttpState.Stream, AllTold, AllKept;
      c :| c in Conns() && s in Owned(c);
      assert Consistent(c, fs);
      forall d | d in conns && d.arg.Some? && d.arg.value.handle == Some(s) ensures d == c {
        assert s in Owned(d);
        assert d != c ==> Apart(c, d);
      }
    }

    /** Four polls, with neither a byte acknowledged nor a GET come in, end a connection. */
    lemma FourPolls(before: seq<Face>, es: seq<Event>)
      requires Valid() && AllLater(before, Faces(), es)
      ensures PolledOut(before, Faces(), es)
    {
      hide HttpState.Serving, HttpState.Stream, AllTold, AllKept, Polls;
      forall i: nat | i < |before| && Sent(i) !in es && Faces()[i].gets == before[i].gets && Polls(es, i) >= 4
        ensures !Faces()[i].alive
      {
        assert Later(before[i], Faces()[i], es, i);
        assert conns[i] in Conns() && Consistent(conns[i], fs);
        assert Faces()[i] == FaceOf(conns[i]);
      }
    }

    /** No client is made to go on, when it can, more often than there are bytes owed to
        it and calls for memory that fail, and once: the others cannot keep it from
        its end. */
    lemma NobodyForEver(shown: seq<seq<Face>>, es: seq<Event>, hung: bool)
      requires Valid() && Shows(shown, es, hung, tags, cgi, fs.root) && shown[|es|] == Faces()
      ensures ServedInTime(shown, es)
    {
      hide HttpState.Serving, HttpState.Stream, AllTold, AllKept, Moves, Continuations;
      assert |shown| == |es| + 1;
      forall i: nat | i < |conns|
        ensures Continuations(shown, es, i) <= |conns[i].due| + conns[i].short + conns[i].lacks + 1
      {
        ContinuedOnlySoOften(shown, es, hung, tags, cgi, fs.root, i);
        assert conns[i] in Conns() && Consistent(conns[i], fs);
        assert Faces()[i] == FaceOf(conns[i]);
      }
    }

    ghost predicate ServedInTime(shown: seq<seq<Face>>, es: seq<Event>)
      reads this`conns, conns
    {
      |shown| == |es| + 1 &&
      forall i: nat :: i < |conns| ==>
        Continuations(shown, es, i) <= |conns[i].due| + conns[i].short + conns[i].lacks + 1
    }

    lemma NotAPart(cs: set<Pcb>, d: set<HttpState>)
      ensures this as object !in PartsOf(cs) && this as object !in cs
      ensures this as object !in ArraysOf(d) && this as object !in d
    {
    }

    /** Notes that the event `e` has turned the faces `before` into the present ones, and
        has freed the state of its connection, if it no longer has one. */
    ghost method Record(e: Event, before: seq<Face>, full: bool, hung: bool)
      requires AllWell(Conns(), fs) && AllTold(before, history, tags, cgi, fs.root) && AllKept(before, states, dead)
      requires AtRest(dead, PartsOf(Conns()) + {fs.memory})
      requires Distinct(conns)
      requires !e.Accept? && e.conn < |conns| == |before| && Faces() == before[e.conn := Faces()[e.conn]]
      requires Stepped(before[e.conn], Faces()[e.conn], e, full, hung, cgi, fs.root)
      requires Faces()[e.conn].state == before[e.conn].state ||
               HasFreed(before[e.conn].state, PartsOf(Conns()) + {fs.memory})
      modifies `history, `dead
      ensures Valid() && history == old(history) + [e] && old(dead) <= dead && Faces() == old(Faces())
    {
      hide AllWell, AllTold, AllKept, AtRest, Distinct, PartsOf, FaceOf, FacesOf, HttpState.Untouched, StateParts;
      var cs, parts, b := Conns(), PartsOf(Conns()) + {fs.memory}, Faces()[e.conn];
      var d := dead;
      AllToldThen(before, b, history, e, full, hung, tags, cgi, fs.root);
      if b.state != before[e.conn].state {
        OneMoreAtRest(dead, before[e.conn].state.value, parts, parts);
        dead := dead + {before[e.conn].state.value};
      }
      AllKeptThen(before, e.conn, b, states, d, dead);
      NotAPart(cs, dead);
      history := history + [e];
    }

    /** The pool is full exactly when every slot of it is the handle of a connection. */
    lemma FullIs()
      requires Valid()
      ensures fs.IsFull() <==> PoolFull(Faces())
    {
      hide AllTold, AllKept, AtRest, Consistent, Apart;
      forall slot: nat | slot < LWIP_MAX_OPEN_FILES ensures slot in fs.InUse() <==> IsTaken(Faces(), slot) {
        if slot in fs.InUse() {
          var c :| c in Conns() && slot in Owned(c);
          var i: nat :| i < |conns| && conns[i] == c;
          assert Faces()[i].slot == Some(slot);
        }
        if i: nat :| i < |Faces()| && Faces()[i].slot == Some(slot) {
          assert Faces()[i] == FaceOf(conns[i]);
          assert conns[i] in Conns() && slot in Owned(conns[i]);
        }
      }
      assert forall slot: nat :: slot < LWIP_MAX_OPEN_FILES ==> (slot in fs.InUse() <==> fs.memory[slot].inuse);
    }

    /** One event on connection `i`. */
    method Step(i: nat, e: Event) returns (hung: bool)
      requires Valid() && i < |conns| && !e.Accept? && e.conn == i
      modifies `history, `dead, conns[i], Parts(conns[i]), fs.memory
      ensures Valid() && conns == old(conns) && history == old(history) + [e]
      ensures Moves(old(Faces()), Faces(), e, hung, tags, cgi, fs.root)
      ensures PartsOf(Conns()) <= old(PartsOf(Conns()))
      ensures old(dead) <= dead && forall h :: h in old(dead) ==> h.Image() == old(h.Image())
    {
      hide AllWell, Stepped, AllTold, AllKept, PartsOf, FaceOf, HasFreed, PoolFull,
           HttpState.Untouched, HttpState.Image;
      var pcb := conns[i];
      ghost var cs, faces, d, full := Conns(), Faces(), dead, fs.IsFull();
      ghost var arrays, all := ArraysOf(d), PartsOf(cs) + {fs.memory};
      FullIs();
      ArraysAllocated(d);
      PartIn(cs, pcb);
      hung := StepBeside(cs, pcb, e, fs, cgi);
      assert unchanged(d) && unchanged(arrays);
      AtRestStill(d, all, PartsOf(cs) + {fs.memory});
      assert Faces() == faces[i := FaceOf(pcb)];
      Record(e, faces, full, hung);
    }

    /** The new connection `pcb` fits in with the others. */
    lemma NewFits(pcb: Pcb, e: Event)
      requires e.Accept? && IsNew(FaceOf(pcb), SsiConfig(tags, e.handler), e.granted) && FaceOf(pcb).state == pcb.arg
      requires AllTold(Faces(), history, tags, cgi, fs.root) && AllKept(Faces(), states, dead)
      requires AtRest(dead, PartsOf(Conns()) + {fs.memory})
      requires Parts(pcb) !! (set h: HttpState | h in dead :: h as object) && Parts(pcb) !! ArraysOf(dead)
      ensures var faces := FacesOf(conns + [pcb]);
              AllTold(faces, history + [e], tags, cgi, fs.root) && AllKept(faces, states + [pcb.arg], dead) &&
              Moves(Faces(), faces, e, false, tags, cgi, fs.root)
      ensures AtRest(dead, PartsOf(Conns()) + {fs.memory} + Parts(pcb))
    {
      hide *;
      FacesAre();
      FacesSnoc(conns, pcb);
      AllToldAccept(Faces(), FaceOf(pcb), history, e, tags, cgi, fs.root);
      AllKeptAccept(Faces(), FaceOf(pcb), states, dead);
      MovesAccept(Faces(), FaceOf(pcb), e, tags, cgi, fs.root);
      AtRestBeside(dead, PartsOf(Conns()) + {fs.memory}, Parts(pcb));
    }

    lemma FacesAre()
      ensures Faces() == FacesOf(conns)
    {
    }

    /** A new connection. */
    method AcceptStep(e: Event)
      requires Valid() && e.Accept?
      modifies `conns, `states, `history
      ensures Valid() && history == old(history) + [e]
      ensures dead == old(dead) && forall h :: h in dead ==> h.Image() == old(h.Image())
      ensures conns[..|old(conns)|] == old(conns) && states[..|old(states)|] == old(states)
      ensures Moves(old(Faces()), Faces(), e, false, tags, cgi, fs.root)
      ensures forall o :: o in PartsOf(Conns()) ==> o in old(PartsOf(Conns())) || fresh(o)
    {
      hide AllWell, AllTold, AllKept, PartsOf, FaceOf, FacesOf, AtRest, IsNew, Moves, HttpState.Image;
      ghost var cs, parts := Conns(), PartsOf(Conns());
      PartsAllocated(cs);
      ArraysAllocated(dead);
      var pcb := AcceptBeside(cs, e.mss, SsiConfig(tags, e.handler), fs, e.granted);
      NewFits(pcb, e);
      assert parts + {fs.memory} + Parts(pcb) == PartsOf(cs + {pcb}) + {fs.memory};
      NotAPart(cs + {pcb}, dead);
      conns := conns + [pcb];
      states := states + [pcb.arg];
      history := history + [e];
      assert Conns() == cs + {pcb};
    }

    /** One event, if it meets a connection. */
    method Next(e: Event) returns (hung: bool)
      requires Valid()
      modifies this, PartsOf(Conns()), fs.memory
      ensures Valid() && history == Recorded(tags, old(history), [e])
      ensures |old(conns)| <= |conns| && conns[..|old(conns)|] == old(conns)
      ensures Moves(old(Faces()), Faces(), e, hung, tags, cgi, fs.root)
      ensures old(dead) <= dead && forall h :: h in old(dead) ==> h.Image() == old(h.Image())
      ensures forall o :: o in PartsOf(Conns()) ==> o in old(PartsOf(Conns())) || fresh(o)
    {
      hide AllWell, AllTold, AllKept, AtRest, PartsOf, FaceOf, FacesOf, Recorded, Accepted, HttpState.Image,
           PoolFull, Stepped, IsNew;
      hung := false;
      AcceptedAre(Faces(), history, tags, cgi, fs.root);
      RecordedOne(tags, history, e);
      if e.Accept? {
        AcceptStep(e);
      } else if e.conn < |conns| {
        PartIn(Conns(), conns[e.conn]);
        hung := Step(e.conn, e);
      }
    }

    /** Any schedule of events, up to a call that hangs: whatever the network does and
        however often writes and allocations fail, the server stays valid.  `done` events
        are delivered, and become part of the history that Valid speaks of.  The faces
        that `shown` lists go through the steps of the abstract server, one for each. */
    method Run(events: seq<Event>) returns (done: nat, hung: bool, ghost shown: seq<seq<Face>>)
      requires Valid()
      modifies this, PartsOf(Conns()), fs.memory
      ensures Valid() && done <= |events| && (hung || done == |events|)
      ensures history == Recorded(tags, old(history), events[..done])
      ensures |old(conns)| <= |conns| && conns[..|old(conns)|] == old(conns)
      ensures Shows(shown, events[..done], hung, tags, cgi, fs.root)
      ensures shown[0] == old(Faces()) && shown[done] == Faces()
      // what that comes to, between the first moment and the last
      ensures AllLater(old(Faces()), Faces(), events[..done]) && PolledOut(old(Faces()), Faces(), events[..done])
      ensures ServedInTime(shown, events[..done])
      ensures !hung && AllRegistered(old(Faces())) ==> AllRegistered(Faces())
      // what has been freed stays as it is
      ensures old(dead) <= dead && forall h :: h in old(dead) ==> h.Image() == old(h.Image())
    {
      hide *;
      ghost var faces, h := Faces(), history;
      done, hung, shown := 0, false, [faces];
      ShowsNothing(faces, tags, cgi, fs.root);
      RecordedNothing(tags, h);
      while done < |events| && !hung
        invariant Valid() && done <= |events|
        invariant history == Recorded(tags, h, events[..done])
        invariant |old(conns)| <= |conns| && conns[..|old(conns)|] == old(conns)
        invariant Shows(shown, events[..done], hung, tags, cgi, fs.root)
        invariant |shown| == done + 1 && shown[0] == faces && shown[done] == Faces()
        invariant old(dead) <= dead && forall h :: h in old(dead) ==> h.Image() == old(h.Image())
        invariant forall o :: o in PartsOf(Conns()) ==> o in old(PartsOf(Conns())) || fresh(o)
      {
        var e := events[done];
        ghost var before, es := Faces(), events[..done];
        hung := Next(e);
        ShowsThen(shown, es, Faces(), e, hung, tags, cgi, fs.root);
        RecordedThen(tags, h, es, e);
        assert events[..done + 1] == es + [e];
        shown := shown + [Faces()];
        done := done + 1;
      }
      ShownLater(shown, events[..done], hung, tags, cgi, fs.root);
      FourPolls(faces, events[..done]);
      NobodyForEver(shown, events[..done], hung);
      if !hung && AllRegistered(faces) {
        ShownRegistered(shown, events[..done], tags, cgi, fs.root);
      }
    }
  }
}
