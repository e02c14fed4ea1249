/** The callbacks of httpd.c: how a connection comes to own its state and a slot of
    the file pool, and how it gives them up. */
module Connection {
  import opened Base
  import opened TagScanner
  import opened FileSystem
  import opened UriParams
  import opened Request
  import opened Httpd

  // -------------------------------------------------------------- ownership

  ghost function Parts(pcb: Pcb): set<object>
    reads pcb
  {
    {pcb as object} +
    match pcb.arg case None => {} case Some(hs) => {hs as object} + hs.Arrays()
  }

  /** The slot of the file pool that the connection holds, if any. */
  ghost function Owned(pcb: Pcb): set<nat>
    reads pcb, Parts(pcb)
  {
    match pcb.arg
    case None => {}
    case Some(hs) => match hs.handle case None => {} case Some(slot) => {slot}
  }

  /** What the connection and its state have to do with each other. */
  ghost predicate Sound(pcb: Pcb)
    reads pcb, Parts(pcb)
  {
    (pcb.recvSet <==> pcb.arg.Some?) && pcb.out <= pcb.due &&
    match pcb.arg
    case None => true
    case Some(hs) =>
      pcb.alive && hs.Live(pcb.out) && (hs.handle.Some? <==> pcb.request.Some?) &&
      (hs.handle.Some? ==> hs.Stream() == pcb.due)
  }

  /** The slot that the connection holds, in the pool `m`, has the file it serves. */
  ghost predicate HasSlot(pcb: Pcb, m: seq<FsSlot>)
    reads pcb, Parts(pcb)
  {
    pcb.arg.Some? && pcb.arg.value.handle.Some? ==>
      pcb.arg.value.handle.value < |m| && m[pcb.arg.value.handle.value] == OpenSlot(pcb.arg.value.block)
  }

  ghost predicate Consistent(pcb: Pcb, fs: FsMemory)
    reads pcb, Parts(pcb), fs.memory
  {
    fs.Valid() && Sound(pcb) && HasSlot(pcb, fs.memory[..])
  }

  /** The request that is answered, and what it is answered with, stay what they were. */
  twostate predicate SameRequest(pcb: Pcb)
    reads pcb
  {
    pcb.request == old(pcb.request) && pcb.due == old(pcb.due)
  }

  /** Nothing has been said on the connection. */
  twostate predicate Silent(pcb: Pcb)
    reads pcb
  {
    SameRequest(pcb) && pcb.out == old(pcb.out) && pcb.gets == old(pcb.gets) && pcb.short == old(pcb.short) &&
    pcb.lacks == old(pcb.lacks) && pcb.refused == old(pcb.refused) && pcb.sndbuf == old(pcb.sndbuf)
  }

  /** The state that was the connection's has been freed, and left alone since; and the
      stack has been told to close the connection, if it is still there. */
  twostate predicate GivenUp(pcb: Pcb, hs: HttpState)
    reads pcb, hs, hs.Arrays()
  {
    pcb.arg == None && old(pcb.arg) == Some(hs) && hs.freed && hs.Untouched() && (pcb.alive ==> pcb.closing)
  }

  /** The pool has changed only in the slots that the connection gave up or took. */
  twostate predicate OwnSlotsOnly(pcb: Pcb, fs: FsMemory)
    reads pcb, Parts(pcb), fs.memory
  {
    fs.InUse() == (old(fs.InUse()) - old(Owned(pcb))) + Owned(pcb) &&
    (forall i :: i in Owned(pcb) ==> i in old(Owned(pcb)) || i !in old(fs.InUse())) &&
    (forall i :: i in old(fs.InUse()) && i !in old(Owned(pcb)) && i < fs.memory.Length ==>
       fs.memory[i] == old(fs.memory[i]))
  }

  // ------------------------------------------------------------ end of a connection

  /** Closes the file, frees the buffer and the state: the common part of close_conn
      and conn_err. */
  method Release(hs: HttpState, fs: FsMemory)
    requires fs.Valid() && !hs.freed && !hs.bufFreed
    requires hs.handle.Some? ==> hs.handle.value < fs.memory.Length
    modifies hs, fs.memory
    ensures hs.freed && hs.Untouched() && hs.handle == None && (hs.buf.Some? <==> hs.bufFreed)
    ensures fs.InUse() == old(fs.InUse()) - (if old(hs.handle).Some? then {old(hs.handle).value} else {})
    ensures forall i :: 0 <= i < fs.memory.Length && Some(i) != old(hs.handle) ==> fs.memory[i] == old(fs.memory[i])
  {
    if hs.handle.Some? {
      fs.Close(hs.handle.value);
      hs.handle := None;
    }
    if hs.buf.Some? {
      hs.MemFreeBuf();
    }
    hs.MemFree();
  }

  method CloseConn(pcb: Pcb, hs: HttpState, fs: FsMemory)
    requires fs.Valid() && pcb.arg == Some(hs) && pcb.out <= pcb.due && !hs.freed && !hs.bufFreed
    requires hs.handle.Some? ==> hs.handle.value < fs.memory.Length
    modifies pcb`arg, pcb`sentSet, pcb`recvSet, pcb`writable, pcb`closing, hs, fs.memory
    ensures Consistent(pcb, fs) && OwnSlotsOnly(pcb, fs)
    ensures GivenUp(pcb, hs) && !pcb.recvSet && !pcb.sentSet
  {
    pcb.arg := None;
    pcb.sentSet := false;
    pcb.recvSet := false;
    Release(hs, fs);
    pcb.Close();
  }

  /** The stack gives up the connection and tells the application so. */
  method ConnErr(pcb: Pcb, fs: FsMemory)
    requires fs.Valid() && pcb.out <= pcb.due
    requires match pcb.arg
             case None => true
             case Some(hs) => !hs.freed && !hs.bufFreed && (hs.handle.Some? ==> hs.handle.value < fs.memory.Length)
    modifies pcb, Parts(pcb), fs.memory
    ensures Consistent(pcb, fs) && OwnSlotsOnly(pcb, fs)
    ensures pcb.arg == None && !pcb.alive && !pcb.recvSet && !pcb.sentSet
    ensures Silent(pcb)
    ensures old(pcb.arg).Some? ==> GivenUp(pcb, old(pcb.arg).value)
  {
    var arg := pcb.arg;
    pcb.alive, pcb.arg, pcb.recvSet, pcb.sentSet := false, None, false, false;
    match arg {
      case None =>
      case Some(hs) => Release(hs, fs);
    }
  }

  /** The stack reports an error on a connection. */
  method Fail(pcb: Pcb, fs: FsMemory)
    requires Consistent(pcb, fs)
    modifies pcb, Parts(pcb), fs.memory
    ensures Consistent(pcb, fs) && OwnSlotsOnly(pcb, fs)
    ensures pcb.arg == None && !pcb.alive
    ensures Silent(pcb)
    ensures old(pcb.arg).Some? ==> GivenUp(pcb, old(pcb.arg).value)
  {
    ConnErr(pcb, fs);
  }

  // ---------------------------------------------------------------- send_data

  /** With bytes of the file left and room for one, a byte has been accepted, or a chunk
      that fits has been refused; with none left, the connection has been closed, or a
      buffer could not be had. */
  twostate predicate Continued(pcb: Pcb)
    requires old(pcb.arg).Some?
    reads pcb`out, pcb`short, pcb`lacks, pcb`arg
  {
    (old(pcb.arg.value.left > 0 && pcb.sndbuf > 0) ==> |pcb.out| > old(|pcb.out|) || pcb.short > old(pcb.short)) &&
    (old(pcb.arg.value.left) == 0 ==> pcb.arg == None || pcb.lacks > old(pcb.lacks)) &&
    (old(pcb.arg.value.left == 0 && pcb.arg.value.buf.Some?) ==> pcb.arg == None)
  }

  /** One call of send_data.  `hung` tells that the source would not return. */
  method SendData(pcb: Pcb, hs: HttpState, fs: FsMemory) returns (closed: bool, hung: bool)
    requires Consistent(pcb, fs) && pcb.arg == Some(hs)
    modifies pcb`arg, pcb`sentSet, pcb`recvSet, pcb`writable, pcb`closing
    modifies pcb`sndbuf, pcb`out, pcb`refused, pcb`short, pcb`lacks, hs, hs.Arrays(), fs.memory
    ensures Consistent(pcb, fs) && OwnSlotsOnly(pcb, fs)
    ensures old(pcb.out) <= pcb.out && pcb.Spent()
    ensures pcb.sentSet == (old(pcb.sentSet) && !closed) && pcb.recvSet == (old(pcb.recvSet) && !closed)
    // it hangs on a closed window exactly as WindowStall says, and never otherwise
    ensures hung <==> old(hs.handle.Some? && hs.WindowStall(pcb))
    ensures hung ==> old(pcb.sndbuf) == pcb.sndbuf == 0
    // it closes only when the file, if there is one, has been sent completely, ...
    ensures closed ==> GivenUp(pcb, hs) && old(hs.left) == 0 && pcb.out == old(pcb.out) && !hung
    ensures closed && old(hs.handle).Some? ==> pcb.out == old(hs.Stream())
    // ... and otherwise goes on
    ensures Continued(pcb)
    ensures !closed ==> pcb.arg == Some(hs) && hs.handle == old(hs.handle) && hs.retries == old(hs.retries)
                        && (hs.handle.Some? ==> hs.block == old(hs.block) && hs.Stream() == old(hs.Stream()))
                        && hs.tagCheck == old(hs.tagCheck) && pcb.writable == old(pcb.writable)
    ensures old(hs.left > 0 && hs.tagCheck && hs.FreshScan() && pcb.sndbuf > 0) && pcb.refused == old(pcb.refused) ==>
              hs.RanOut(old(hs.file), |pcb.out| - old(|pcb.out|))
    // a file without tags goes out in chunks as large as room and two segments allow
    ensures old(hs.left > 0 && !hs.tagCheck) && pcb.refused == old(pcb.refused) ==>
              |pcb.out| == old(|pcb.out| + HttpState.ChunkLen(pcb, hs.left))
  {
    hide HttpState.Serving, HttpState.Stream, HttpState.FreshScan, HttpState.RanOut, HttpState.ChunkLen,
         HttpState.Untouched;
    closed, hung := false, false;
    if hs.left == 0 {
      closed := EndFile(pcb, hs, fs);
    } else if hs.tagCheck {
      hung := ContinueSsi(pcb, hs);
    } else {
      ContinuePlain(pcb, hs);
    }
  }

  /** No byte of the file is left: the connection is closed, if a buffer can be had. */
  method EndFile(pcb: Pcb, hs: HttpState, fs: FsMemory) returns (closed: bool)
    requires Consistent(pcb, fs) && pcb.arg == Some(hs) && hs.left == 0
    modifies pcb`arg, pcb`sentSet, pcb`recvSet, pcb`writable, pcb`closing, pcb`lacks, hs, fs.memory
    ensures Consistent(pcb, fs) && OwnSlotsOnly(pcb, fs) && pcb.lacks >= old(pcb.lacks)
    ensures closed || pcb.lacks > old(pcb.lacks)
    ensures old(hs.buf).Some? ==> closed
    ensures if closed then GivenUp(pcb, hs) && !pcb.recvSet && !pcb.sentSet
                           && (old(hs.handle).Some? ==> pcb.out == old(hs.Stream()))
            else pcb.arg == Some(hs) && hs.handle == old(hs.handle) && hs.retries == old(hs.retries)
                 && hs.block == old(hs.block) && hs.Stream() == old(hs.Stream()) && hs.tagCheck == old(hs.tagCheck)
                 && unchanged(pcb`writable, pcb`sentSet, pcb`recvSet)
  {
    hide HttpState.Serving, HttpState.Stream, HttpState.Untouched;
    closed := false;
    if hs.buf == None {
      hs.AllocateBuf(pcb);
      if hs.buf == None {
        return;
      }
    }
    FinishFile(pcb, hs, fs);
    closed := true;
  }

  lemma InService(pcb: Pcb, hs: HttpState, fs: FsMemory)
    requires Consistent(pcb, fs) && pcb.arg == Some(hs)
    ensures fs.Valid() && !hs.freed && !hs.bufFreed && hs.Shape() && pcb.out <= pcb.due
    ensures hs.handle == None ==> pcb.out == ""
    ensures hs.handle.Some? ==> fs.Holds(hs.handle.value, hs.block) && hs.Serving(pcb.out)
  {
  }

  /** No byte of the file is left: the connection is closed.  fs_open has put the read
      position at the end of the file, so fs_read has nothing to add. */
  method FinishFile(pcb: Pcb, hs: HttpState, fs: FsMemory)
    requires Consistent(pcb, fs) && pcb.arg == Some(hs) && hs.left == 0 && hs.buf.Some?
    modifies pcb`arg, pcb`sentSet, pcb`recvSet, pcb`writable, pcb`closing, hs, fs.memory
    ensures Consistent(pcb, fs) && OwnSlotsOnly(pcb, fs)
    ensures GivenUp(pcb, hs) && !pcb.recvSet && !pcb.sentSet
    ensures old(hs.handle).Some? ==> pcb.out == old(hs.Stream())
  {
    hide HttpState.Live, HttpState.Serving, HttpState.Stream, Consistent;
    InService(pcb, hs, fs);
    if hs.handle == None {
      CloseConn(pcb, hs, fs);
      return;
    }
    hs.ServedPrefix(pcb.out);
    var slot := hs.handle.value;
    var chunk := ReadMore(fs, slot, hs.block, hs.buf.value);
    fs.Close(slot);
    hs.handle := None;
    CloseConn(pcb, hs, fs);
  }

  /** fs_read on an opened file: it is at its end already, so there is nothing more. */
  method ReadMore(fs: FsMemory, slot: nat, ghost data: string, count: nat) returns (chunk: Option<string>)
    requires fs.Valid() && fs.Holds(slot, data)
    modifies fs.memory
    ensures chunk == None && forall i :: 0 <= i < fs.memory.Length ==> fs.memory[i] == old(fs.memory[i])
  {
    chunk := fs.Read(slot, count);
    assert forall i :: 0 <= i < fs.memory.Length ==> fs.memory[..][i] == old(fs.memory[..])[i];
  }

  lemma PrefixesOfOne(a: string, b: string, s: string)
    requires a <= s && b <= s && |a| <= |b|
    ensures a <= b
  {
  }

  method ContinueSsi(pcb: Pcb, hs: HttpState) returns (hung: bool)
    requires pcb.arg == Some(hs) && hs.Live(pcb.out) && hs.handle.Some? && hs.left > 0 && hs.tagCheck
    modifies hs, hs.Arrays(), pcb`sndbuf, pcb`out, pcb`refused, pcb`short
    ensures hs.Live(pcb.out) && old(pcb.out) <= pcb.out <= hs.Stream() && pcb.Spent()
    ensures hung <==> old(hs.WindowStall(pcb))
    ensures old(pcb.sndbuf > 0 && hs.FreshScan()) && pcb.refused == old(pcb.refused) ==>
              hs.RanOut(old(hs.file), |pcb.out| - old(|pcb.out|))
    ensures old(pcb.sndbuf) > 0 ==> |pcb.out| > old(|pcb.out|) || pcb.short > old(pcb.short)
    ensures hs.handle == old(hs.handle) && hs.retries == old(hs.retries)
    ensures hs.block == old(hs.block) && hs.tagCheck == old(hs.tagCheck) && hs.Stream() == old(hs.Stream())
  {
    hide Expand;
    hs.ServedPrefix(pcb.out);
    hung := hs.SendSsi(pcb);
    hs.ServedPrefix(pcb.out);
    PrefixesOfOne(old(pcb.out), pcb.out, hs.Stream());
  }

  method ContinuePlain(pcb: Pcb, hs: HttpState)
    requires pcb.arg == Some(hs) && hs.Live(pcb.out) && hs.handle.Some? && hs.left > 0 && !hs.tagCheck
    modifies hs, pcb`sndbuf, pcb`out, pcb`refused, pcb`short
    ensures hs.Live(pcb.out) && old(pcb.out) <= pcb.out <= hs.Stream() && pcb.Spent()
    ensures old(pcb.sndbuf) > 0 ==> |pcb.out| > old(|pcb.out|) || pcb.short > old(pcb.short)
    ensures pcb.refused == old(pcb.refused) ==> |pcb.out| == old(|pcb.out| + HttpState.ChunkLen(pcb, hs.left))
    ensures hs.handle == old(hs.handle) && hs.retries == old(hs.retries)
    ensures hs.block == old(hs.block) && hs.tagCheck == old(hs.tagCheck) && hs.Stream() == old(hs.Stream())
  {
    hide Expand, AsHalved;
    hs.ServedPrefix(pcb.out);
    var len, err := hs.SendPlain(pcb);
    HalvedGives(old(HttpState.ChunkLen(pcb, hs.left)), old(pcb.sndbuf), pcb.refused - old(pcb.refused),
                pcb.short - old(pcb.short), len, err);
    hs.ServedPrefix(pcb.out);
    PrefixesOfOne(old(pcb.out), pcb.out, hs.Stream());
  }

  // ---------------------------------------------------------------- callbacks

  /** http_accept on a new connection; `granted` tells that there is memory for its state. */
  method HttpAccept(pcb: Pcb, cfg: SsiConfig, fs: FsMemory, granted: bool)
    requires fs.Valid() && pcb.alive && pcb.arg == None && !pcb.recvSet && pcb.out == "" && pcb.request == None
    modifies pcb`arg, pcb`recvSet
    ensures Consistent(pcb, fs) && Owned(pcb) == {} && (pcb.recvSet <==> granted) && (pcb.arg.Some? <==> granted)
    ensures pcb.arg.Some? ==>
      var hs := pcb.arg.value;
      hs.cfg == cfg && hs.handle == None && hs.retries == 0 && fresh(Parts(pcb) - {pcb})
  {
    if granted {
      var hs := new HttpState(cfg);
      pcb.arg := Some(hs);
      pcb.recvSet := true;
    }
  }

  /** http_poll.  A connection polled for the fourth time in a row is aborted. */
  method HttpPoll(pcb: Pcb, fs: FsMemory) returns (hung: bool)
    requires Consistent(pcb, fs) && pcb.alive
    modifies pcb, Parts(pcb), fs.memory
    ensures Consistent(pcb, fs) && OwnSlotsOnly(pcb, fs)
    ensures old(pcb.out) <= pcb.out && SameRequest(pcb) && pcb.gets == old(pcb.gets) && pcb.Spent()
    ensures pcb.alive <==> old(pcb.arg.Some? && pcb.arg.value.retries < 3)
    ensures hung ==> old(pcb.sndbuf) == pcb.sndbuf == 0
    ensures hung <==> old(pcb.arg.Some? && pcb.arg.value.retries < 3 && pcb.arg.value.handle.Some?
                          && pcb.arg.value.WindowStall(pcb))
    ensures match old(pcb.arg)
            case None => pcb.arg == None && Silent(pcb)
            case Some(hs) =>
              // a connection that has not asked for anything is left alone, until it is aborted
              (old(hs.handle) == None ==> Silent(pcb) && (pcb.alive ==> pcb.arg == Some(hs))) &&
              (pcb.alive && old(hs.handle).Some? ==> Continued(pcb)) &&
              if pcb.arg == None then GivenUp(pcb, hs) && (pcb.alive ==> pcb.out == pcb.due)
              else pcb.arg == Some(hs) && hs.retries == old(hs.retries) + 1 && hs.handle == old(hs.handle)
                   && pcb.sentSet == old(pcb.sentSet)
  {
    hide HttpState.Serving, HttpState.Stream, HttpState.WindowStall, HttpState.FreshScan, HttpState.RanOut,
         HttpState.Untouched;
    hung := false;
    match pcb.arg {
      case None => ConnErr(pcb, fs);
      case Some(hs) =>
        hs.SetRetries(hs.retries + 1, pcb);
        if hs.retries == 4 {
          ConnErr(pcb, fs);
          return;
        }
        if hs.handle.Some? {
          var closed;
          closed, hung := SendData(pcb, hs, fs);
        }
    }
  }

  /** http_sent: the peer has acknowledged data. */
  method HttpSent(pcb: Pcb, fs: FsMemory) returns (hung: bool)
    requires Consistent(pcb, fs) && pcb.alive
    modifies pcb, Parts(pcb), fs.memory
    ensures Consistent(pcb, fs) && OwnSlotsOnly(pcb, fs)
    ensures old(pcb.out) <= pcb.out && pcb.alive && SameRequest(pcb) && pcb.gets == old(pcb.gets)
    ensures pcb.Spent()
    ensures hung ==> old(pcb.sndbuf) == pcb.sndbuf == 0
    ensures hung <==> old(pcb.arg.Some? && pcb.arg.value.handle.Some? && pcb.arg.value.WindowStall(pcb))
    ensures match old(pcb.arg)
            case None => pcb.arg == None && Silent(pcb)
            case Some(hs) =>
              Continued(pcb) && (hung || pcb.sentSet) &&
              if pcb.arg == None then GivenUp(pcb, hs) && (pcb.request.Some? ==> pcb.out == pcb.due)
              else pcb.arg == Some(hs) && hs.retries == 0 && hs.handle == old(hs.handle)
  {
    hung := false;
    match pcb.arg {
      case None =>
      case Some(hs) => hung := Acknowledged(pcb, hs, fs);
    }
  }

  method Acknowledged(pcb: Pcb, hs: HttpState, fs: FsMemory) returns (hung: bool)
    requires Consistent(pcb, fs) && pcb.arg == Some(hs)
    modifies pcb`arg, pcb`sentSet, pcb`recvSet, pcb`writable, pcb`closing
    modifies pcb`sndbuf, pcb`out, pcb`refused, pcb`short, pcb`lacks, hs, hs.Arrays(), fs.memory
    ensures Consistent(pcb, fs) && OwnSlotsOnly(pcb, fs) && old(pcb.out) <= pcb.out
    ensures Continued(pcb) && (hung || pcb.sentSet) && pcb.Spent()
    ensures hung ==> old(pcb.sndbuf) == pcb.sndbuf == 0
    ensures hung <==> old(hs.handle.Some? && hs.WindowStall(pcb))
    ensures if pcb.arg == None then GivenUp(pcb, hs) && (pcb.request.Some? ==> pcb.out == pcb.due)
            else pcb.arg == Some(hs) && hs.retries == 0 && hs.handle == old(hs.handle)
  {
    hide HttpState.Live, HttpState.Stream, HttpState.WindowStall, HttpState.FreshScan, HttpState.RanOut,
         HttpState.ChunkLen, HttpState.Untouched;
    hs.SetRetries(0, pcb);
    pcb.sentSet := false;
    var closed;
    closed, hung := SendData(pcb, hs, fs);
    if !hung {
      pcb.sentSet := true;
    }
  }

  /** http_recv on a GET request: the file that answers it is opened and started on. */
  method Answer(pcb: Pcb, hs: HttpState, fs: FsMemory, cgi: CgiConfig, p: array<char>,
                ghost request: string)
    requires Consistent(pcb, fs) && pcb.arg == Some(hs) && hs.handle == None
    requires IsGet(request) && StringAt(p[..], URI_AT, UriOf(request)) && p as object !in hs.Arrays()
    modifies hs, hs.params, hs.paramVals, p, fs.memory, pcb`due, pcb`request
    ensures Consistent(pcb, fs) && OwnSlotsOnly(pcb, fs) && hs.retries == 0
    ensures match if old(fs.IsFull()) then None else AnswerTo(request, cgi, fs.root)
            case None => hs.handle == None && hs.left == 0 && SameRequest(pcb)
            case Some(page) =>
              var data := Find(fs.root, page.name).value;
              pcb.request == Some(request) && pcb.due == PageStream(hs.cfg, page, data) &&
              hs.handle.Some? && hs.block == data && hs.left == |data|
  {
    hide RequestedName, Candidates, FirstFound, Find, OpenedFirst, StringAt, HttpState.Live, IsGet, UriOf, AnswerTo;
    InService(pcb, hs, fs);
    ghost var before := fs.memory[..];
    hs.tagCheck := false;
    var file, shtml := OpenRequested(fs, p, hs.params, hs.paramVals, cgi, UriOf(request));
    match file {
      case Some(slot) =>
        PageOpened(request, cgi, fs.root, before, fs.memory[..], slot, shtml);
        assert forall i :: 0 <= i < |before| ==> fs.memory[i] == if i == slot then fs.memory[slot] else before[i];
        Begin(pcb, hs, fs, slot, shtml, request);
      case None =>
        NoPageOpened(request, cgi, fs.root, before, fs.memory[..]);
        assert forall i :: 0 <= i < |before| ==> fs.memory[i] == before[i];
        hs.StartNothing(pcb.out);
    }
  }

  /** The connection takes slot `slot`, and starts on the file in it. */
  method Begin(pcb: Pcb, hs: HttpState, fs: FsMemory, slot: nat, shtml: bool, ghost request: string)
    requires fs.Valid() && pcb.arg == Some(hs) && pcb.alive && pcb.recvSet && pcb.out == ""
    requires !hs.freed && !hs.bufFreed && hs.Shape()
    requires slot < fs.memory.Length && fs.Holds(slot, fs.memory[slot].file.data)
    modifies hs, pcb`due, pcb`request
    ensures Consistent(pcb, fs) && Owned(pcb) == {slot} && pcb.request == Some(request)
    ensures hs.handle == Some(slot) && hs.block == fs.memory[slot].file.data && hs.tagCheck == shtml
    ensures hs.retries == 0 && hs.file == 0 && hs.parsed == 0 && hs.tagState == NoTag
    ensures hs.left == hs.parseLeft == |hs.block|
  {
    hide HttpState.Serving, HttpState.Stream;
    hs.tagCheck := shtml;
    hs.StartFile(slot, fs.memory[slot].file.data);
    pcb.due, pcb.request := hs.Stream(), Some(request);
  }

  /** What a client is sent for a page. */
  ghost function PageStream(cfg: SsiConfig, page: Page, data: string): string {
    if page.shtml then Expand(cfg, data) else data
  }

  /** The page that answers a GET request, unless the pool of open files is full. */
  ghost function AnswerTo(request: seq<char>, cgi: CgiConfig, files: seq<FsData>): (page: Option<Page>)
    requires IsGet(request)
    ensures page.Some? ==> Find(files, page.value.name).Some?
  {
    var pages := Candidates(UriOf(request) == "/", RequestedName(cgi, UriOf(request)));
    match FirstFound(files, pages) case None => None case Some(i) => Some(pages[i])
  }

  /** What answers a request, in terms of the list of files: the first of these names that is
      in it, and tags are expanded exactly if that name has an SSI extension. */
  lemma AnswerIsFirst(request: string, cgi: CgiConfig, files: seq<FsData>)
    requires IsGet(request)
    ensures var names := NamesTried(UriOf(request) == "/", RequestedName(cgi, UriOf(request)));
            match AnswerTo(request, cgi, files)
            case None => forall i :: 0 <= i < |names| ==> IsMissing(files, names[i])
            case Some(page) =>
              exists i: nat :: i < |names| && page.name == names[i] && !IsMissing(files, names[i]) &&
                               (page.shtml <==> IsSsiName(names[i])) &&
                               forall j :: 0 <= j < i ==> IsMissing(files, names[j])
  {
    hide *;
    var root, name := UriOf(request) == "/", RequestedName(cgi, UriOf(request));
    var names, pages := NamesTried(root, name), Candidates(root, name);
    AnswerIs(request, cgi, files);
    CandidatesAreNamed(root, name);
    FirstFoundIs(files, pages);
    match FirstFound(files, pages)
    case None => forall i | 0 <= i < |names| ensures IsMissing(files, names[i]) { assert pages[i].name == names[i]; }
    case Some(k) =>
      assert pages[k].name == names[k];
      forall j | 0 <= j < k ensures IsMissing(files, names[j]) { assert pages[j].name == names[j]; }
  }

  lemma AnswerIs(request: string, cgi: CgiConfig, files: seq<FsData>)
    requires IsGet(request)
    ensures var pages := Candidates(UriOf(request) == "/", RequestedName(cgi, UriOf(request)));
            AnswerTo(request, cgi, files) ==
              match FirstFound(files, pages) case None => None case Some(i) => Some(pages[i])
  {
  }

  lemma PageOpened(request: string, cgi: CgiConfig, files: seq<FsData>, before: seq<FsSlot>, after: seq<FsSlot>,
                   slot: nat, shtml: bool)
    requires IsGet(request)
    requires var pages := Candidates(UriOf(request) == "/", RequestedName(cgi, UriOf(request)));
             OpenedFirst(files, before, after, pages, Some(slot)) &&
             FirstFound(files, pages).Some? && shtml == pages[FirstFound(files, pages).value].shtml
    ensures slot < |before| && !before[slot].inuse && AnswerTo(request, cgi, files).Some?
    ensures var page := AnswerTo(request, cgi, files).value;
            shtml == page.shtml && after == before[slot := OpenSlot(Find(files, page.name).value)]
  {
    hide IsGet, UriOf, Candidates, RequestedName, Find;
  }

  lemma NoPageOpened(request: string, cgi: CgiConfig, files: seq<FsData>, before: seq<FsSlot>, after: seq<FsSlot>)
    requires IsGet(request)
    requires var pages := Candidates(UriOf(request) == "/", RequestedName(cgi, UriOf(request)));
             OpenedFirst(files, before, after, pages, None)
    ensures (forall i :: 0 <= i < |before| ==> before[i].inuse) || AnswerTo(request, cgi, files) == None
    ensures after == before
  {
    hide IsGet, UriOf, Candidates, RequestedName, Find;
  }

  /** The URI has been found: the file that answers it is opened, and sending starts. */
  method Respond(pcb: Pcb, hs: HttpState, fs: FsMemory, cgi: CgiConfig, p: array<char>, ghost request: string)
    returns (hung: bool)
    requires Consistent(pcb, fs) && pcb.arg == Some(hs) && hs.handle == None
    requires IsGet(request) && StringAt(p[..], URI_AT, UriOf(request)) && p as object !in hs.Arrays()
    modifies pcb, hs, hs.Arrays(), p, fs.memory
    ensures Consistent(pcb, fs) && OwnSlotsOnly(pcb, fs) && pcb.alive == old(pcb.alive)
    ensures pcb.gets == old(pcb.gets) + 1 && pcb.Spent()
    ensures pcb.arg == Some(hs) ==> pcb.sentSet && hs.retries == 0
    ensures hung ==> old(pcb.sndbuf) == pcb.sndbuf == 0
    ensures match if old(fs.IsFull()) then None else AnswerTo(request, cgi, fs.root)
            case None =>
              SameRequest(pcb) && (pcb.arg == Some(hs) ==> hs.handle == None && pcb.lacks > old(pcb.lacks))
            case Some(page) =>
              var data := Find(fs.root, page.name).value;
              pcb.request == Some(request) && pcb.due == PageStream(hs.cfg, page, data) &&
              (old(pcb.sndbuf) > 0 && data != "" ==> pcb.out != "" || pcb.short > old(pcb.short)) &&
              (data == "" ==> pcb.arg == None || pcb.lacks > old(pcb.lacks)) &&
              if pcb.arg == None then pcb.out == pcb.due else hs.handle.Some? && hs.block == data
    ensures pcb.arg == Some(hs) || (GivenUp(pcb, hs) && !hung)
  {
    hide HttpState.Live, HttpState.Stream, HttpState.Untouched, PageStream, AnswerTo, StringAt, UriOf, IsGet, Find;
    Answer(pcb, hs, fs, cgi, p, request);
    pcb.gets := pcb.gets + 1;
    hung := SendFirst(pcb, hs, fs);
  }

  /** Callbacks for acknowledged data are asked for, and send_data is called at once. */
  method SendFirst(pcb: Pcb, hs: HttpState, fs: FsMemory) returns (hung: bool)
    requires Consistent(pcb, fs) && pcb.arg == Some(hs)
    modifies pcb`arg, pcb`sentSet, pcb`recvSet, pcb`writable, pcb`closing
    modifies pcb`sndbuf, pcb`out, pcb`refused, pcb`short, pcb`lacks, hs, hs.Arrays(), fs.memory
    ensures Consistent(pcb, fs) && OwnSlotsOnly(pcb, fs) && pcb.Spent() && Continued(pcb)
    ensures hung ==> old(pcb.sndbuf) == pcb.sndbuf == 0
    ensures if pcb.arg == None then GivenUp(pcb, hs) && !hung && (pcb.request.Some? ==> pcb.out == pcb.due)
            else pcb.arg == Some(hs) && pcb.sentSet && hs.handle == old(hs.handle) && hs.retries == old(hs.retries)
                 && (hs.handle.Some? ==> hs.block == old(hs.block))
  {
    hide HttpState.Live, HttpState.Stream, HttpState.WindowStall, HttpState.FreshScan, HttpState.RanOut,
         HttpState.ChunkLen, HttpState.Untouched;
    pcb.sentSet := true;
    var closed;
    closed, hung := SendData(pcb, hs, fs);
  }

  /** The packet `p` starts with "GET ": the URI is found and answered. */
  method HandleGet(pcb: Pcb, hs: HttpState, fs: FsMemory, cgi: CgiConfig, p: array<char>) returns (hung: bool)
    requires Consistent(pcb, fs) && pcb.arg == Some(hs) && hs.handle == None
    requires p.Length >= 9 && p[..4] == "GET " && p as object !in hs.Arrays()
    modifies pcb, hs, hs.Arrays(), p, fs.memory
    ensures Consistent(pcb, fs) && OwnSlotsOnly(pcb, fs) && pcb.alive == old(pcb.alive)
    ensures pcb.gets == old(pcb.gets) + if IsGet(old(p[..])) then 1 else 0
    ensures pcb.Spent() && (pcb.arg == Some(hs) ==> pcb.sentSet && hs.retries == 0)
    ensures hung ==> old(pcb.sndbuf) == pcb.sndbuf == 0
    ensures !IsGet(old(p[..])) ==> pcb.arg == None && Silent(pcb) && !hung
    ensures IsGet(old(p[..])) ==>
      match if old(fs.IsFull()) then None else AnswerTo(old(p[..]), cgi, fs.root)
      case None => SameRequest(pcb) && (pcb.arg == Some(hs) ==> hs.handle == None && pcb.lacks > old(pcb.lacks))
      case Some(page) =>
        var data := Find(fs.root, page.name).value;
        pcb.request == Some(old(p[..])) && pcb.due == PageStream(hs.cfg, page, data) &&
        (old(pcb.sndbuf) > 0 && data != "" ==> pcb.out != "" || pcb.short > old(pcb.short)) &&
        (data == "" ==> pcb.arg == None || pcb.lacks > old(pcb.lacks)) &&
        if pcb.arg == None then pcb.out == pcb.due else hs.handle.Some? && hs.block == data
    ensures pcb.arg == Some(hs) || (GivenUp(pcb, hs) && !hung)
  {
    hide FindMark, Find, StringAt, UriOf, AnswerTo, PageStream, HttpState.Live, HttpState.Stream;
    ghost var request := p[..];
    hung := false;
    var at := TerminateUri(p);
    if at == None {
      InService(pcb, hs, fs);
      CloseConn(pcb, hs, fs);
    } else {
      UriInPlace(request, p[..]);
      hung := Respond(pcb, hs, fs, cgi, p, request);
    }
  }

  /** The packet `p` is a GET request, received while no file is served. */
  ghost predicate IsNewGet(pcb: Pcb, p: array?<char>, ok: bool)
    reads pcb, Parts(pcb), p
  {
    ok && p != null && pcb.arg.Some? && pcb.arg.value.handle == None && IsGet(p[..])
  }

  /** http_recv: `p` is the packet received, or null when the peer has closed. */
  method HttpRecv(pcb: Pcb, fs: FsMemory, cgi: CgiConfig, p: array?<char>, ok: bool) returns (hung: bool)
    requires Consistent(pcb, fs) && pcb.recvSet
    requires p != null ==> p.Length >= 9 && p as object !in Parts(pcb)
    modifies pcb, Parts(pcb), fs.memory, p
    ensures Consistent(pcb, fs) && OwnSlotsOnly(pcb, fs)
    ensures pcb.alive == old(pcb.alive) && old(pcb.out) <= pcb.out
    ensures pcb.arg == old(pcb.arg) || (GivenUp(pcb, old(pcb.arg).value) && !hung)
    ensures hung ==> old(pcb.sndbuf) == pcb.sndbuf == 0
    // an end of the connection closes it; an error, or a packet while a file is served, does nothing
    ensures ok && p == null ==> pcb.arg == None
    ensures !ok || (p != null && old(pcb.arg.value.handle).Some?) ==> pcb.arg == old(pcb.arg)
    // a request that is no GET closes the connection
    ensures ok && p != null && old(pcb.arg.value.handle == None && !IsGet(p[..])) ==> pcb.arg == None
    ensures if !old(IsNewGet(pcb, p, ok)) then
              Silent(pcb) && !hung &&
              (pcb.arg.Some? ==> pcb.sentSet == old(pcb.sentSet) &&
                                 pcb.arg.value.handle == old(pcb.arg.value.handle) &&
                                 pcb.arg.value.retries == old(pcb.arg.value.retries))
            else
              // a GET is answered by its page
              pcb.gets == old(pcb.gets) + 1 && pcb.Spent() &&
              (pcb.arg.Some? ==> pcb.sentSet && pcb.arg.value.retries == 0) &&
              match if old(fs.IsFull()) then None else AnswerTo(old(p[..]), cgi, fs.root)
              case None => SameRequest(pcb) && (pcb.arg == None || pcb.lacks > old(pcb.lacks))
              case Some(page) =>
                var data := Find(fs.root, page.name).value;
                pcb.request == Some(old(p[..])) && pcb.due == PageStream(old(pcb.arg).value.cfg, page, data) &&
                (old(pcb.sndbuf) > 0 && data != "" ==> pcb.out != "" || pcb.short > old(pcb.short)) &&
                (data == "" ==> pcb.arg == None || pcb.lacks > old(pcb.lacks)) &&
                if pcb.arg == None then pcb.out == pcb.due else pcb.arg.value.handle.Some?
  {
    hide RequestedName, Candidates, FirstFound, Find, HttpState.Serving, FindMark, HttpState.Stream, PageStream;
    hung := false;
    var hs := pcb.arg.value;
    if ok && p != null {
      if hs.handle == None {
        if p[..4] == "GET " {
          hung := HandleGet(pcb, hs, fs, cgi, p);
        } else {
          assert p[..][..4] == p[..4];
          CloseConn(pcb, hs, fs);
        }
      }
    }
    if ok && p == null {
      CloseConn(pcb, hs, fs);
    }
  }
}
