/** What a run of the server shows: the events that the TCP stack delivers, and what
    they make of each connection. */
module History {
  import opened Base
  import opened TagScanner
  import opened Tcp
  import opened FileSystem
  import opened Request
  import opened Httpd
  import opened Connection

  /** What the TCP stack may do next; `conn` numbers the connections.  The handler is the
      one that answers for the tags of the files sent on the connection, and `granted` tells
      that there is memory for its state. */
  datatype Event =
    | Accept(mss: Mss, handler: Option<(nat, nat) -> Insert>, granted: bool)
    | Recv(conn: nat, packet: Option<string>, ok: bool)
    | Sent(conn: nat)
    | Poll(conn: nat)
    | Abort(conn: nat)
    | Elapse(conn: nat)

  // ------------------------------------------------------------ what a run shows

  /** What a run shows of a connection and of its state. */
  datatype Face = Face(alive: bool, state: Option<HttpState>, slot: Option<nat>, left: nat,
                       retries: nat, recvSet: bool, sentSet: bool, closing: bool,
                       room: nat, short: nat, lacks: nat,
                       out: string, request: Option<string>, due: string, gets: nat)
  {
    /** How near the connection is to being aborted, which it is at 4. */
    function Age(): nat {
      if !alive then 4 else if state == None then 3 else retries
    }

    /** The connection waits for a request. */
    predicate Listens() {
      alive && recvSet && state.Some? && slot == None
    }

    /** The event `e` makes the connection go on with what it serves, ... */
    predicate Wakes(e: Event) {
      alive && state.Some? && ((e.Sent? && sentSet) || (e.Poll? && retries < 3 && slot.Some?))
    }

    /** ... and there is something it can do: send, or, with everything sent, close. */
    predicate CanGoOn() {
      left > 0 ==> room > 0
    }

    /** What calls of send_data come to: bytes accepted, chunks that fit refused, buffers not
        had, and the end. */
    function Progress(): nat {
      |out| + short + lacks + if state == None then 1 else 0
    }

    /** The callbacks are registered that the connection needs. */
    predicate Registered() {
      state.Some? ==> recvSet && (slot.Some? ==> sentSet)
    }
  }

  ghost function FaceOf(pcb: Pcb): Face
    reads pcb, Parts(pcb)
  {
    var some := pcb.arg.Some?;
    Face(pcb.alive, pcb.arg, if some then pcb.arg.value.handle else None, if some then pcb.arg.value.left else 0,
         if some then pcb.arg.value.retries else 0, pcb.recvSet, pcb.sentSet, pcb.closing,
         pcb.sndbuf, pcb.short, pcb.lacks, pcb.out, pcb.request, pcb.due, pcb.gets)
  }

  /** `due` is what the page that answers `request` is to be sent as. */
  ghost predicate Answers(request: string, due: string, cfg: SsiConfig, cgi: CgiConfig, files: seq<FsData>) {
    IsGet(request) &&
    match AnswerTo(request, cgi, files)
    case None => false
    case Some(page) => due == PageStream(cfg, page, Find(files, page.name).value)
  }

  /** A GET request comes in on connection `i`. */
  ghost predicate HasGet(es: seq<Event>, i: nat) {
    exists p :: Recv(i, Some(p), true) in es && IsGet(p)
  }

  /** The event `e` brings a GET request that a page answers. */
  ghost predicate BringsGet(e: Event, cgi: CgiConfig, files: seq<FsData>)
    requires e.Recv?
  {
    e.ok && e.packet.Some? && |e.packet.value| >= 9 &&
    IsGet(e.packet.value) && AnswerTo(e.packet.value, cgi, files).Some?
  }

  /** What never shrinks, and what stays: a connection that is gone, and with the passing of
      time all but the room in the send buffer, which only bytes accepted use up. */
  ghost predicate Grows(a: Face, b: Face, e: Event) {
    a.out <= b.out && a.short <= b.short && a.lacks <= b.lacks && (b.state == a.state || b.state == None) &&
    (!a.alive ==> b == a) &&
    (if e.Elapse? then b == a.(room := b.room) else b.room + |b.out| == a.room + |a.out|)
  }

  /** What is served: a GET request that comes in is taken up if it can be, no other one is,
      and what is being served goes on. */
  ghost predicate Serves(a: Face, b: Face, e: Event, full: bool, cgi: CgiConfig, files: seq<FsData>)
    requires !e.Accept?
  {
    (b.gets == a.gets || (b.gets == a.gets + 1 && HasGet([e], e.conn))) &&
    ((b.request == a.request && b.due == a.due) ||
     (a.request == None && b.request.Some? && e == Recv(e.conn, b.request, true) && a.state.Some? &&
      Answers(b.request.value, b.due, a.state.value.cfg, cgi, files))) &&
    (e.Recv? && BringsGet(e, cgi, files) && a.Listens() && !full ==> b.request == e.packet) &&
    (a.Wakes(e) && a.CanGoOn() ==> b.Progress() > a.Progress()) &&
    (a.state == None ==> b.out == a.out && b.request == a.request)
  }

  /** The event `e` may be the reason for the server to close the connection. */
  predicate MayClose(a: Face, e: Event) {
    e.Sent? || (e.Poll? && a.slot.Some?) || (e.Recv? && e.ok && (e.packet == None || a.slot == None))
  }

  /** The event `e` is one: the peer has closed, or a packet that is no GET asks for nothing. */
  predicate MustClose(a: Face, e: Event) {
    a.alive && a.recvSet && a.state.Some? && e.Recv? && e.ok &&
    (e.packet == None || (a.slot == None && |e.packet.value| >= 9 && !IsGet(e.packet.value)))
  }

  /** How a connection ends: by an error or the fourth poll, which abort it, or closed by the
      server for a reason, and after all of the answer, if the peer has not closed. */
  ghost predicate Ends(a: Face, b: Face, e: Event)
    requires !e.Accept?
  {
    (b.alive <==> a.alive && !e.Abort? && (e.Poll? ==> a.state.Some? && a.retries < 3)) &&
    (a.state.Some? && b.state == None && b.alive ==>
       b.closing && MayClose(a, e) && (b.request.Some? ==> b.out == b.due || e == Recv(e.conn, None, true))) &&
    (MustClose(a, e) ==> b.state == None)
  }

  /** Polls make a connection older; an acknowledgement or a GET makes it young again. */
  ghost predicate Ages(a: Face, b: Face, e: Event) {
    (b.state.Some? ==>
       b.retries == if e.Poll? then a.retries + 1 else if a.Wakes(e) || b.gets > a.gets then 0 else a.retries) &&
    (!e.Sent? && b.gets == a.gets ==> b.Age() >= if e.Poll? && a.Age() < 4 then a.Age() + 1 else a.Age())
  }

  /** What the event `e` does on its connection; `full` tells that all slots for open files
      are in use, `hung` that the call does not return. */
  ghost predicate Stepped(a: Face, b: Face, e: Event, full: bool, hung: bool, cgi: CgiConfig, files: seq<FsData>) {
    !e.Accept? && Grows(a, b, e) && Serves(a, b, e, full, cgi, files) && Ends(a, b, e) && Ages(a, b, e) &&
    (if hung then a.room == 0 else a.Registered() ==> b.Registered())
  }

  /** A connection that has just been accepted. */
  ghost predicate IsNew(f: Face, cfg: SsiConfig, granted: bool) {
    f.alive && f.slot == None && f.out == "" && f.request == None && f.due == "" && !f.closing &&
    f.gets == f.short == f.lacks == f.retries == 0 && f.room == TCP_SND_BUF && f.Registered() &&
    (f.state.Some? <==> granted) && (granted ==> f.Listens() && f.state.value.cfg == cfg)
  }

  /** How often connection `i` is polled. */
  function Polls(es: seq<Event>, i: nat): nat {
    if es == [] then 0
    else
      var e := es[|es| - 1];
      Polls(es[..|es| - 1], i) + if e.Poll? && e.conn == i then 1 else 0
  }

  lemma PollsThen(h: seq<Event>, e: Event, i: nat)
    ensures Polls(h + [e], i) == Polls(h, i) + if e.Poll? && e.conn == i then 1 else 0
  {
    assert (h + [e])[..|h + [e]| - 1] == h;
  }

  lemma {:induction false} NeverPolled(h: seq<Event>, i: nat)
    requires Poll(i) !in h
    ensures Polls(h, i) == 0
  {
    if h != [] {
      assert h[|h| - 1] in h;
      NeverPolled(h[..|h| - 1], i);
    }
  }

  /** What holds between two moments of connection `i` with the events `es` between them:
      no byte is taken back, a request once taken up stays the same, what is given up
      stays given up, and, with neither a byte acknowledged nor a GET come in, four polls
      are the end of it. */
  ghost predicate Later(a: Face, b: Face, es: seq<Event>, i: nat) {
    a.out <= b.out && (b.alive ==> a.alive) && (b.state == a.state || b.state == None) &&
    (a.request.Some? ==> b.request == a.request && b.due == a.due) &&
    a.gets <= b.gets && (b.gets == a.gets || HasGet(es, i)) &&
    (Sent(i) !in es && b.gets == a.gets ==>
       b.Age() >= if a.Age() + Polls(es, i) < 4 then a.Age() + Polls(es, i) else 4)
  }

  lemma LaterThen(a: Face, b: Face, c: Face, es: seq<Event>, e: Event, i: nat)
    requires Later(a, b, es, i) && Later(b, c, [e], i)
    ensures Later(a, c, es + [e], i)
  {
    hide IsGet;
    PollsThen(es, e, i);
    PollsThen([], e, i);
    assert [] + [e] == [e];
  }

  /** An event of which the connection is not told. */
  lemma NotTold(f: Face, e: Event, full: bool, cgi: CgiConfig, files: seq<FsData>)
    requires !f.alive || (e.Recv? && !f.recvSet) || (e.Sent? && !f.sentSet) || (e.Recv? && !BringsText(e))
    requires !e.Accept? && (e.Poll? ==> !f.alive) && (f.state.Some? ==> f.alive)
    ensures Stepped(f, f, e, full, false, cgi, files)
  {
  }

  /** The packet, if it is one, is long enough to be looked at. */
  predicate BringsText(e: Event)
    requires e.Recv?
  {
    e.packet.Some? ==> |e.packet.value| >= 9
  }

  lemma SteppedIsLater(a: Face, b: Face, e: Event, full: bool, hung: bool, cgi: CgiConfig, files: seq<FsData>)
    requires Stepped(a, b, e, full, hung, cgi, files)
    ensures Later(a, b, [e], e.conn)
  {
    assert [e][..0] == [];
    assert e.Sent? ==> [e][0] == Sent(e.conn);
  }

  lemma LaterElsewhere(a: Face, e: Event, i: nat)
    requires e.Accept? || e.conn != i
    ensures Later(a, a, [e], i)
  {
    assert [e][..0] == [];
  }

  /** The configurations of the connections accepted in the run `h`, in their order. */
  function Accepted(tags: seq<string>, h: seq<Event>): seq<SsiConfig> {
    if h == [] then []
    else
      var e := h[|h| - 1];
      Accepted(tags, h[..|h| - 1]) + if e.Accept? then [SsiConfig(tags, e.handler)] else []
  }

  lemma AcceptedThen(tags: seq<string>, h: seq<Event>, e: Event)
    ensures Accepted(tags, h + [e]) == Accepted(tags, h) + if e.Accept? then [SsiConfig(tags, e.handler)] else []
  {
    assert (h + [e])[..|h + [e]| - 1] == h;
  }

  /** The run `h` accounts for what connection `i` shows: what it is to be sent is the
      answer to a request that it received, if the server has closed it after taking up a
      request, and the peer had not, then all of the answer has been sent, and polls make
      it older until the peer says something. */
  ghost predicate Told(f: Face, i: nat, h: seq<Event>, cfg: SsiConfig, cgi: CgiConfig, files: seq<FsData>) {
    (f.state.Some? ==> f.state.value.cfg == cfg) &&
    (match f.request
     case None => f.due == ""
     case Some(request) => Recv(i, Some(request), true) in h && Answers(request, f.due, cfg, cgi, files)) &&
    (f.alive && f.state == None && f.request.Some? && Recv(i, None, true) !in h ==> f.out == f.due) &&
    (Sent(i) !in h && f.gets == 0 ==> f.Age() >= if Polls(h, i) < 4 then Polls(h, i) else 4)
  }

  ghost predicate AllTold(faces: seq<Face>, h: seq<Event>, tags: seq<string>, cgi: CgiConfig, files: seq<FsData>) {
    |Accepted(tags, h)| == |faces| && (forall e :: e in h && !e.Accept? ==> e.conn < |faces|) &&
    forall i :: 0 <= i < |faces| ==> Told(faces[i], i, h, Accepted(tags, h)[i], cgi, files)
  }

  lemma ToldThen(a: Face, b: Face, h: seq<Event>, e: Event, full: bool, hung: bool,
                 cfg: SsiConfig, cgi: CgiConfig, files: seq<FsData>)
    requires Stepped(a, b, e, full, hung, cgi, files) && Told(a, e.conn, h, cfg, cgi, files)
    ensures Told(b, e.conn, h + [e], cfg, cgi, files)
  {
    hide Answers, IsGet;
    assert e in h + [e];
    PollsThen(h, e, e.conn);
  }

  lemma AllToldThen(faces: seq<Face>, b: Face, h: seq<Event>, e: Event, full: bool, hung: bool,
                    tags: seq<string>, cgi: CgiConfig, files: seq<FsData>)
    requires AllTold(faces, h, tags, cgi, files)
    requires !e.Accept? && e.conn < |faces| && Stepped(faces[e.conn], b, e, full, hung, cgi, files)
    ensures AllTold(faces[e.conn := b], h + [e], tags, cgi, files)
  {
    hide Answers, Stepped, Accepted, Polls;
    AcceptedThen(tags, h, e);
    forall i: nat ensures i != e.conn ==> Polls(h + [e], i) == Polls(h, i) { PollsThen(h, e, i); }
    ToldThen(faces[e.conn], b, h, e, full, hung, Accepted(tags, h)[e.conn], cgi, files);
  }

  lemma AllToldAccept(faces: seq<Face>, b: Face, h: seq<Event>, e: Event,
                      tags: seq<string>, cgi: CgiConfig, files: seq<FsData>)
    requires AllTold(faces, h, tags, cgi, files) && e.Accept? && IsNew(b, SsiConfig(tags, e.handler), e.granted)
    ensures AllTold(faces + [b], h + [e], tags, cgi, files)
  {
    hide Answers, Accepted, Polls;
    AcceptedThen(tags, h, e);
    forall i: nat ensures Polls(h + [e], i) == Polls(h, i) { PollsThen(h, e, i); }
    NeverPolled(h, |faces|);
  }

  /** The run `h`, continued with those of the events `es` that meet a connection. */
  function Recorded(tags: seq<string>, h: seq<Event>, es: seq<Event>): seq<Event> {
    if es == [] then h
    else
      var before, e := Recorded(tags, h, es[..|es| - 1]), es[|es| - 1];
      if e.Accept? || e.conn < |Accepted(tags, before)| then before + [e] else before
  }

  // ------------------------------------------------------------ all connections

  /** All slots for open files are in use. */
  ghost predicate PoolFull(faces: seq<Face>) {
    forall slot: nat :: slot < LWIP_MAX_OPEN_FILES ==> IsTaken(faces, slot)
  }

  ghost predicate IsTaken(faces: seq<Face>, slot: nat) {
    exists i: nat :: i < |faces| && faces[i].slot == Some(slot)
  }

  /** One step of the abstract server: the event meets one connection, or opens one, and
      leaves the others as they are. */
  ghost predicate Moves(a: seq<Face>, b: seq<Face>, e: Event, hung: bool,
                        tags: seq<string>, cgi: CgiConfig, files: seq<FsData>)
  {
    if e.Accept? then !hung && |b| == |a| + 1 && b[..|a|] == a && IsNew(b[|a|], SsiConfig(tags, e.handler), e.granted)
    else if e.conn < |a| then
      |b| == |a| && b == a[e.conn := b[e.conn]] &&
      Stepped(a[e.conn], b[e.conn], e, PoolFull(a), hung, cgi, files)
    else !hung && b == a
  }

  lemma MovesAccept(a: seq<Face>, f: Face, e: Event, tags: seq<string>, cgi: CgiConfig, files: seq<FsData>)
    requires e.Accept? && IsNew(f, SsiConfig(tags, e.handler), e.granted)
    ensures Moves(a, a + [f], e, false, tags, cgi, files)
  {
    hide IsNew;
  }

  /** The faces `w` are what a run with the events `es` shows from its first to its last
      moment, if only the last of the calls hangs, in case of `hung`. */
  ghost predicate Shows(w: seq<seq<Face>>, es: seq<Event>, hung: bool,
                        tags: seq<string>, cgi: CgiConfig, files: seq<FsData>)
  {
    |w| == |es| + 1 &&
    forall k: nat :: k < |es| ==> Moves(w[k], w[k + 1], es[k], hung && k + 1 == |es|, tags, cgi, files)
  }

  lemma ShowsNothing(faces: seq<Face>, tags: seq<string>, cgi: CgiConfig, files: seq<FsData>)
    ensures Shows([faces], [], false, tags, cgi, files)
  {
  }

  lemma ShowsThen(w: seq<seq<Face>>, es: seq<Event>, b: seq<Face>, e: Event, hung: bool,
                  tags: seq<string>, cgi: CgiConfig, files: seq<FsData>)
    requires Shows(w, es, false, tags, cgi, files) && Moves(w[|es|], b, e, hung, tags, cgi, files)
    ensures Shows(w + [b], es + [e], hung, tags, cgi, files)
  {
    hide Moves;
  }

  lemma ShowsBefore(w: seq<seq<Face>>, es: seq<Event>, hung: bool,
                    tags: seq<string>, cgi: CgiConfig, files: seq<FsData>)
    requires Shows(w, es, hung, tags, cgi, files) && es != []
    ensures var k := |es| - 1;
            Shows(w[..|es|], es[..k], false, tags, cgi, files) && |w| == |es| + 1 &&
            Moves(w[k], w[k + 1], es[k], hung, tags, cgi, files)
  {
    hide Moves;
  }

  ghost predicate AllLater(a: seq<Face>, b: seq<Face>, es: seq<Event>) {
    |a| <= |b| && forall i: nat :: i < |a| ==> Later(a[i], b[i], es, i)
  }

  /** Whoever has been polled four times, with neither a byte acknowledged nor a GET come
      in, is gone. */
  ghost predicate PolledOut(a: seq<Face>, b: seq<Face>, es: seq<Event>) {
    |a| <= |b| &&
    forall i: nat :: i < |a| && Sent(i) !in es && b[i].gets == a[i].gets && Polls(es, i) >= 4 ==> !b[i].alive
  }

  lemma AllLaterThen(a: seq<Face>, b: seq<Face>, c: seq<Face>, es: seq<Event>, e: Event)
    requires AllLater(a, b, es) && AllLater(b, c, [e])
    ensures AllLater(a, c, es + [e])
  {
    hide Later;
    forall i: nat | i < |a| ensures Later(a[i], c[i], es + [e], i) { LaterThen(a[i], b[i], c[i], es, e, i); }
  }

  lemma NothingLater(a: seq<Face>)
    ensures AllLater(a, a, [])
  {
  }

  lemma OneLater(a: seq<Face>, b: seq<Face>, e: Event, hung: bool,
                 tags: seq<string>, cgi: CgiConfig, files: seq<FsData>)
    requires Moves(a, b, e, hung, tags, cgi, files)
    ensures AllLater(a, b, [e])
  {
    hide Later, Stepped, PoolFull, IsNew;
    forall i: nat | i < |a| ensures Later(a[i], b[i], [e], i) {
      if e.Accept? || i != e.conn {
        assert b[..|a|][i] == b[i];
        LaterElsewhere(a[i], e, i);
      } else {
        SteppedIsLater(a[i], b[i], e, PoolFull(a), hung, cgi, files);
      }
    }
  }

  /** What holds between the first and the last moment of a run. */
  lemma {:induction false} ShownLater(w: seq<seq<Face>>, es: seq<Event>, hung: bool,
                                      tags: seq<string>, cgi: CgiConfig, files: seq<FsData>)
    requires Shows(w, es, hung, tags, cgi, files)
    ensures AllLater(w[0], w[|es|], es)
  {
    if es == [] {
      NothingLater(w[0]);
    } else {
      hide AllLater, Shows, Moves;
      ShowsBefore(w, es, hung, tags, cgi, files);
      var k := |es| - 1;
      ShownLater(w[..|es|], es[..k], false, tags, cgi, files);
      OneLater(w[k], w[k + 1], es[k], hung, tags, cgi, files);
      AllLaterThen(w[0], w[k], w[k + 1], es[..k], es[k]);
      assert es[..k] + [es[k]] == es;
    }
  }

  ghost predicate AllRegistered(faces: seq<Face>) {
    forall i: nat :: i < |faces| ==> faces[i].Registered()
  }

  lemma MovesRegistered(a: seq<Face>, b: seq<Face>, e: Event,
                        tags: seq<string>, cgi: CgiConfig, files: seq<FsData>)
    requires Moves(a, b, e, false, tags, cgi, files) && AllRegistered(a)
    ensures AllRegistered(b)
  {
    hide PoolFull, Answers, BringsGet, HasGet, Face.Registered, Face.Wakes, Face.CanGoOn;
    if e.Accept? { forall i: nat | i < |a| ensures b[i] == a[i] { assert b[..|a|][i] == b[i]; } }
  }

  /** Through a whole run every connection with a state is told of packets, and every one
      with a file of acknowledgements. */
  lemma {:induction false} ShownRegistered(w: seq<seq<Face>>, es: seq<Event>,
                                           tags: seq<string>, cgi: CgiConfig, files: seq<FsData>)
    requires Shows(w, es, false, tags, cgi, files) && AllRegistered(w[0])
    ensures AllRegistered(w[|es|])
  {
    if es != [] {
      hide Shows, Moves, AllRegistered;
      ShowsBefore(w, es, false, tags, cgi, files);
      var k := |es| - 1;
      ShownRegistered(w[..|es|], es[..k], tags, cgi, files);
      MovesRegistered(w[k], w[k + 1], es[k], tags, cgi, files);
    }
  }

  /** How often in a run connection `i` was made to go on when it could. */
  ghost function Continuations(w: seq<seq<Face>>, es: seq<Event>, i: nat): nat
    requires |w| == |es| + 1
  {
    if es == [] then 0
    else
      var k := |es| - 1;
      Continuations(w[..|es|], es[..k], i) +
      if i < |w[k]| && !es[k].Accept? && es[k].conn == i && w[k][i].Wakes(es[k]) && w[k][i].CanGoOn() then 1 else 0
  }

  ghost function ProgressOf(faces: seq<Face>, i: nat): nat {
    if i < |faces| then faces[i].Progress() else 0
  }

  lemma MovesProgress(a: seq<Face>, b: seq<Face>, e: Event, hung: bool,
                      tags: seq<string>, cgi: CgiConfig, files: seq<FsData>, i: nat)
    requires Moves(a, b, e, hung, tags, cgi, files)
    ensures ProgressOf(b, i) >= ProgressOf(a, i) +
            if i < |a| && !e.Accept? && e.conn == i && a[i].Wakes(e) && a[i].CanGoOn() then 1 else 0
  {
    hide PoolFull, IsNew, Answers, BringsGet, HasGet;
    if e.Accept? && i < |a| { assert b[..|a|][i] == b[i]; }
  }

  /** Each time a connection is made to go on when it can, it comes nearer to its end,
      whatever else happens. */
  lemma {:induction false} ContinuedOnlySoOften(w: seq<seq<Face>>, es: seq<Event>, hung: bool,
                                                tags: seq<string>, cgi: CgiConfig, files: seq<FsData>, i: nat)
    requires Shows(w, es, hung, tags, cgi, files)
    ensures Continuations(w, es, i) + ProgressOf(w[0], i) <= ProgressOf(w[|es|], i)
  {
    if es != [] {
      hide Shows, Moves, ProgressOf, Face.Wakes, Face.CanGoOn;
      ShowsBefore(w, es, hung, tags, cgi, files);
      var k := |es| - 1;
      ContinuedOnlySoOften(w[..|es|], es[..k], false, tags, cgi, files, i);
      MovesProgress(w[k], w[k + 1], es[k], hung, tags, cgi, files, i);
    }
  }

  lemma RecordedNothing(tags: seq<string>, h: seq<Event>)
    ensures Recorded(tags, h, []) == h
  {
  }

  lemma RecordedOne(tags: seq<string>, h: seq<Event>, e: Event)
    ensures Recorded(tags, h, [e]) == if e.Accept? || e.conn < |Accepted(tags, h)| then h + [e] else h
  {
    assert [e][..0] == [];
  }

  lemma RecordedThen(tags: seq<string>, h: seq<Event>, es: seq<Event>, e: Event)
    ensures Recorded(tags, h, es + [e]) == Recorded(tags, Recorded(tags, h, es), [e])
  {
    hide Accepted;
    assert (es + [e])[..|es + [e]| - 1] == es && [e][..0] == [];
  }

  lemma AcceptedAre(faces: seq<Face>, h: seq<Event>, tags: seq<string>, cgi: CgiConfig, files: seq<FsData>)
    requires AllTold(faces, h, tags, cgi, files)
    ensures |Accepted(tags, h)| == |faces|
  {
  }
}
