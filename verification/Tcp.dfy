/** The part of a TCP connection that the server sees: a send buffer of limited
    room, writes that take a chunk whole or not at all, and the callback argument. */
module Tcp {
  import opened Base

  datatype Err = ErrOk | ErrMem | ErrConn

  const TCP_SND_BUF: nat := 512

  /** A maximum segment size is positive. */
  type Mss = n: nat | n > 0 witness 1

  class TcpPcb<T> {
    const mss: Mss
    var alive: bool       // not yet deallocated by the stack
    var writable: bool    // in a state that accepts data
    var sndbuf: nat       // free room in the send buffer
    var arg: Option<T>    // what the callbacks are handed
    var recvSet: bool     // a receive callback is registered
    var sentSet: bool     // a sent callback is registered
    ghost var out: string // every byte accepted so far
    var refused: nat       // how many writes were refused, for whatever reason,
    var short: nat         // and how many although there was room for the chunk
    var lacks: nat         // how many allocations of a read buffer have failed
    ghost var closing: bool // tcp_close has been called
    ghost var gets: nat    // how many GET requests were looked up
    ghost var request: Option<string> // the one of them for which a file was opened
    ghost var due: string  // what that request is to be answered with

    constructor (mss: Mss)
      ensures this.mss == mss && alive && writable && sndbuf == TCP_SND_BUF
      ensures out == "" && refused == short == lacks == gets == 0 && !closing && request == None && due == ""
      ensures arg.None? && !recvSet && !sentSet
    {
      this.mss := mss;
      alive, writable, arg, recvSet, sentSet := true, true, None, false, false;
      sndbuf := TCP_SND_BUF;
      refused, short, lacks, gets := 0, 0, 0, 0;
      closing := false;
      out, request, due := "", None, "";
    }

    /** What the caller of tcp_write cannot have foreseen: a chunk for which there is
        room has been refused, or the connection takes no data. */
    ghost predicate Unforeseen(data: string)
      reads this
    {
      !writable || |data| <= sndbuf
    }

    /** Writes use up room for the bytes accepted, and no refusal is forgotten. */
    twostate predicate Spent()
      reads this
    {
      old(|out|) <= |out| && sndbuf + |out| == old(sndbuf + |out|) &&
      refused >= old(refused) && short >= old(short) && lacks >= old(lacks)
    }

    /** tcp_write: refused when the connection takes no data, when the chunk exceeds
        the room left, or when memory is short. */
    method Write(data: string) returns (err: Err)
      modifies this`sndbuf, this`out, this`refused, this`short
      ensures !writable <==> err == ErrConn
      ensures data == "" && writable ==> err == ErrOk
      ensures err == ErrOk ==> |data| <= old(sndbuf) && sndbuf == old(sndbuf) - |data| && out == old(out) + data
                               && refused == old(refused) && short == old(short)
      ensures err != ErrOk ==> sndbuf == old(sndbuf) && out == old(out) && refused == old(refused) + 1
                               && short == old(short) + if Unforeseen(data) then 1 else 0
    {
      var lowMemory: bool := *;
      if !writable {
        err := ErrConn;
        short := short + 1;
      } else if data == "" {
        err := ErrOk;
      } else if |data| > sndbuf {
        err := ErrMem;
      } else if lowMemory {
        err := ErrMem;
        short := short + 1;
      } else {
        err := ErrOk;
        sndbuf := sndbuf - |data|;
      }
      if err == ErrOk { out := out + data; } else { refused := refused + 1; }
    }

    /** What the network does between two callbacks. */
    method Elapse()
      modifies this`sndbuf, this`writable
    {
      sndbuf := *;
      writable := *;
    }

    /** The peer acknowledges everything: there is room to write. */
    method OpenWindow()
      modifies this`sndbuf, this`writable
      ensures sndbuf > 0 && writable
    {
      sndbuf := *;
      if sndbuf == 0 { sndbuf := 1; }
      writable := true;
    }

    /** tcp_close: no more data afterwards, unless closing fails for lack of memory. */
    method Close()
      modifies this`writable, this`closing
      ensures closing
    {
      writable := *;
      closing := true;
    }
  }
}
