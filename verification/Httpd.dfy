/** The streaming sender of httpd.c: one connection's state and send_data. */
module Httpd {
  import opened Base
  import opened TagScanner
  import opened Streaming
  import opened Tcp
  import opened UriParams

  /** `n` halved `k` times, rounding down. */
  function Halve(n: nat, k: nat): nat {
    if k == 0 then n else Halve(n, k - 1) / 2
  }

  /** What comes of offering `len0` bytes with `room` left in the send buffer: after each of
      `refusals` the chunk is halved, and half a chunk is tried if it is more than one byte.
      If none of the refusals was for want of memory, all of the chunks refused were larger
      than the room. */
  ghost predicate AsHalved(len0: nat, room: nat, refusals: nat, shortages: nat, len: nat, err: Err) {
    len <= len0 && shortages <= refusals &&
    (err == ErrOk ==> len == Halve(len0, refusals) <= room && (refusals > 0 ==> 1 < len < len0)) &&
    (err == ErrMem ==> refusals > 0 && len == Halve(len0, refusals) <= 1 &&
                       (refusals > 1 ==> Halve(len0, refusals - 1) > 1)) &&
    (err == ErrConn ==> refusals == shortages == 1 && len == len0) &&
    (shortages == 0 ==> forall j: nat :: j < refusals ==> Halve(len0, j) > room)
  }

  /** If memory is not short, a halved chunk that is accepted takes at least half of the
      room, and nothing is accepted only if there is hardly any room. */
  lemma HalfTheRoom(len0: nat, room: nat, refusals: nat, len: nat, err: Err)
    requires AsHalved(len0, room, refusals, 0, len, err)
    ensures err == ErrOk ==> len == len0 <= room || (len <= room <= 2 * len && room < len0)
    ensures err == ErrMem ==> room <= 2 && room < len0
    ensures err != ErrConn
  {
    if refusals > 0 { assert Halve(len0, 0) > room && Halve(len0, refusals - 1) > room; }
  }

  lemma HalvedGives(len0: nat, room: nat, refusals: nat, shortages: nat, len: nat, err: Err)
    requires AsHalved(len0, room, refusals, shortages, len, err)
    ensures len <= len0 && (err != ErrOk ==> refusals > 0)
    ensures err == ErrOk ==> (len == len0 || 1 < len) && (refusals == 0 ==> len == len0)
    ensures len0 <= room && refusals > 0 ==> shortages > 0
  {
    assert Halve(len0, 0) == len0;
  }

  /** The do-while loop around every tcp_write: a chunk refused for lack of memory
      is halved and tried again while more than one byte of it is left. */
  method WriteHalving<T>(pcb: TcpPcb<T>, bytes: string, len0: nat) returns (len: nat, err: Err)
    requires len0 <= |bytes|
    modifies pcb`sndbuf, pcb`out, pcb`refused, pcb`short
    ensures pcb.Spent()
    ensures AsHalved(len0, old(pcb.sndbuf), pcb.refused - old(pcb.refused), pcb.short - old(pcb.short), len, err)
    ensures if err == ErrOk then pcb.out == old(pcb.out) + bytes[..len] else pcb.out == old(pcb.out)
    ensures err == ErrConn <==> !pcb.writable
    ensures len0 == 0 && pcb.writable ==> err == ErrOk
  {
    len := len0;
    err := pcb.Write(bytes[..len]);
    if err == ErrMem {
      len := len / 2;
    }
    while err == ErrMem && len > 1
      invariant pcb.Spent()
      invariant var k := pcb.refused - old(pcb.refused);
                len <= len0 && pcb.short - old(pcb.short) <= k &&
                (err != ErrConn ==> len == Halve(len0, k)) &&
                (err == ErrOk ==> len <= old(pcb.sndbuf) && (k > 0 ==> 1 < len < len0)) &&
                (err == ErrMem ==> k > 0 && len < len0 && (k > 1 ==> Halve(len0, k - 1) > 1)) &&
                (err == ErrConn ==> k == pcb.short - old(pcb.short) == 1 && len == len0) &&
                (pcb.short == old(pcb.short) ==> forall j: nat :: j < k ==> Halve(len0, j) > old(pcb.sndbuf))
      invariant if err == ErrOk then pcb.out == old(pcb.out) + bytes[..len] else pcb.out == old(pcb.out)
      invariant err == ErrConn <==> !pcb.writable
      invariant len0 == 0 && pcb.writable ==> err == ErrOk
      decreases if err == ErrMem then 1 else 0, len
    {
      err := pcb.Write(bytes[..len]);
      if err == ErrMem {
        len := len / 2;
      }
    }
  }

  datatype TagState = NoTag | InLeadIn | InName | InLeadOut | Sending

  type Pcb = TcpPcb<HttpState>

  /** The fields of an HttpState and the contents of its arrays. */
  datatype Snapshot = Snapshot(
    handle: Option<nat>, block: string, file: nat, left: nat, parsed: nat, parseLeft: nat, tagEnd: nat,
    buf: Option<nat>, bufFreed: bool, retries: nat, tagCheck: bool,
    tagIndex: nat, tagInsertLen: nat, tagNameLen: nat, tagState: TagState, calls: nat,
    params: seq<nat>, paramVals: seq<Option<nat>>, tagName: string, tagInsert: string)

  class HttpState {
    const cfg: SsiConfig
    var handle: Option<nat>   // slot of the open file
    var block: string         // the bytes that `file`, `parsed` and `tagEnd` point into
    var file: nat             // first unsent byte
    var left: nat             // number of unsent bytes
    var parsed: nat           // first unparsed byte
    var parseLeft: nat        // number of unparsed bytes
    var tagEnd: nat           // just after the closing `>` of the last tag
    var buf: Option<nat>      // length of the read buffer, when there is one
    var retries: nat
    var tagCheck: bool
    var tagIndex: nat
    var tagInsertLen: nat
    var tagNameLen: nat
    const params: array<nat>           // where the parameters' names start in the request
    const paramVals: array<Option<nat>>
    const tagName: array<char>
    const tagInsert: array<char>
    var tagState: TagState
    var calls: nat            // inserts asked for since the file was opened: not a field of the
                              // source, it stands for the time the handler is asked at

    ghost var freed: bool     // mem_free has been called on this object
    ghost var bufFreed: bool  // and on its read buffer
    ghost var grave: Snapshot    // what the object held when it was freed

    /** What http_accept allocates and initialises. */
    constructor (cfg: SsiConfig)
      ensures this.cfg == cfg && handle == None && file == left == 0 && buf == None && retries == 0
      ensures Shape() && fresh(Arrays()) && !freed && !bufFreed
    {
      this.cfg := cfg;
      params, paramVals := new nat[MAX_CGI_PARAMS], new Option<nat>[MAX_CGI_PARAMS](_ => None);
      tagName, tagInsert := new char[MAX_TAG_NAME_LEN + 1], new char[MAX_TAG_INSERT_LEN + 1];
      handle, buf := None, None;
      file, left, retries := 0, 0, 0;
      freed, bufFreed := false, false;
    }

    ghost predicate Shape() {
      tagName.Length == MAX_TAG_NAME_LEN + 1 && tagInsert.Length == MAX_TAG_INSERT_LEN + 1 &&
      tagName != tagInsert && params.Length == paramVals.Length == MAX_CGI_PARAMS
    }

    ghost function Arrays(): set<object> {
      {params as object, paramVals as object, tagName as object, tagInsert as object}
    }

    // ------------------------------------------------------------ invariant

    /** The cursors add up, and each counter is in range for its state. */
    ghost predicate Cursor()
      reads this
    {
      !freed && Shape() && file <= parsed && file + left == parsed + parseLeft == |block| &&
      match tagState
      case NoTag => true
      case InLeadIn => 1 <= tagIndex <= |LEAD_IN|
      case InName => tagIndex <= MAX_TAG_NAME_LEN
      case InLeadOut => tagIndex < |LEAD_OUT| && 1 <= tagNameLen <= MAX_TAG_NAME_LEN
      case Sending => tagEnd == parsed && tagIndex <= tagInsertLen <= MAX_TAG_INSERT_LEN &&
                          (tagIndex > 0 ==> file == parsed)
    }

    /** The scanner's memory, read off the fields. */
    ghost function Memory(): Scan
      requires Cursor()
      reads this, tagName
    {
      match tagState
      case NoTag => Idle
      case InLeadIn => if tagIndex == |LEAD_IN| then Name("") else LeadIn(tagIndex)
      case InName => Name(tagName[..tagIndex])
      case InLeadOut => LeadOut(tagName[..tagNameLen], tagIndex)
      case Sending => Idle
    }

    /** What is left to send of the last tag's insert. */
    ghost function Pending(): string
      requires Cursor()
      reads this, tagInsert
    {
      if tagState == Sending then tagInsert[tagIndex..tagInsertLen] else ""
    }

    /** Nothing of the scanned file has been dropped, repeated or reordered. */
    ghost predicate Tracking(out: string)
      reads this, tagName, tagInsert
    {
      Cursor() &&
      (tagState == InLeadOut ==> tagName[tagNameLen] == NUL) &&
      Track(cfg, block, file, parsed, Memory(), calls, Pending(), out)
    }

    // ----------------------------------------------------- sending file bytes

    /** Offers `len0` of the scanned but unsent file bytes. */
    method SendFile(pcb: Pcb, len0: nat) returns (len: nat, err: Err)
      requires Tracking(pcb.out) && len0 <= parsed - file
      modifies `file, `left, pcb`sndbuf, pcb`out, pcb`refused, pcb`short
      ensures Tracking(pcb.out) && pcb.Spent()
      ensures len <= len0
      ensures err == ErrOk ==> file == old(file) + len && pcb.out == old(pcb.out) + block[old(file)..file]
                               && (len == len0 || 1 < len)
                               && (pcb.refused == old(pcb.refused) ==> len == len0)
      ensures err != ErrOk ==> pcb.out == old(pcb.out) && file == old(file) && pcb.refused > old(pcb.refused)
      ensures err == ErrConn <==> !pcb.writable
      ensures len0 == 0 && pcb.writable ==> err == ErrOk
      ensures len0 <= old(pcb.sndbuf) && pcb.refused > old(pcb.refused) ==> pcb.short > old(pcb.short)
      ensures AsHalved(len0, old(pcb.sndbuf), pcb.refused - old(pcb.refused), pcb.short - old(pcb.short), len, err)
    {
      hide Track, AsHalved;
      len, err := WriteHalving(pcb, block[file..], len0);
      HalvedGives(len0, old(pcb.sndbuf), pcb.refused - old(pcb.refused), pcb.short - old(pcb.short), len, err);
      if err == ErrOk {
        TrackSend(cfg, block, file, parsed, Memory(), calls, Pending(), old(pcb.out), len);
        assert block[file..][..len] == block[file..file + len];
        file := file + len;
        left := left - len;
      }
    }

    // ------------------------------------------------------ scanning one byte

    method PassNone(ghost out: string)
      requires Tracking(out) && tagState == NoTag && parseLeft > 0
      modifies `tagState, `tagIndex, `parsed, `parseLeft
      ensures Tracking(out) && tagState != Sending
      ensures parseLeft == old(parseLeft) - 1 && TagAt(block, parsed).None?
    {
      hide Track, TagAt, ScanAt;
      TrackByte(cfg, block, file, parsed, Memory(), calls, out);
      if block[parsed] == LEAD_IN[0] {
        tagState := InLeadIn;
        tagIndex := 1;
      }
      parseLeft := parseLeft - 1;
      parsed := parsed + 1;
    }

    method PassLeadIn(ghost out: string)
      requires Tracking(out) && tagState == InLeadIn && parseLeft > 0
      modifies `tagState, `tagIndex, `parsed, `parseLeft
      ensures Tracking(out) && tagState != Sending
      ensures (parseLeft == old(parseLeft) - 1 && TagAt(block, parsed).None?)
              || (parseLeft == old(parseLeft) && tagState == InName && old(tagIndex) == |LEAD_IN|)
    {
      hide Track, TagAt, ScanAt;
      if tagIndex == |LEAD_IN| {
        tagIndex := 0;
        tagState := InName;
        assert tagName[..0] == "";
      } else {
        TrackByte(cfg, block, file, parsed, Memory(), calls, out);
        if block[parsed] == LEAD_IN[tagIndex] {
          tagIndex := tagIndex + 1;
        } else {
          tagState := NoTag;
        }
        parseLeft := parseLeft - 1;
        parsed := parsed + 1;
      }
    }

    method PassFound(ghost out: string)
      requires Tracking(out) && tagState == InName && parseLeft > 0
      modifies `tagState, `tagIndex, `tagNameLen, `parsed, `parseLeft, tagName
      ensures Tracking(out) && tagState != Sending
      ensures parseLeft == old(parseLeft) - 1 && TagAt(block, parsed).None?
    {
      hide Track, TagAt, ScanAt;
      TrackByte(cfg, block, file, parsed, Memory(), calls, out);
      ghost var name := tagName[..tagIndex];
      var c := block[parsed];
      if tagIndex == 0 && IsSpace(c) {
        parseLeft := parseLeft - 1;
        parsed := parsed + 1;
        return;
      }
      if c == LEAD_OUT[0] || IsSpace(c) {
        if tagIndex == 0 {
          tagState := NoTag;
        } else {
          tagState := InLeadOut;
          tagNameLen := tagIndex;
          tagName[tagIndex] := NUL;
          assert tagName[..tagNameLen] == name;
          tagIndex := if c == LEAD_OUT[0] then 1 else 0;
        }
      } else {
        if tagIndex < MAX_TAG_NAME_LEN {
          tagName[tagIndex] := c;
          tagIndex := tagIndex + 1;
          assert tagName[..tagIndex] == name + [c];
        } else {
          tagState := NoTag;
        }
      }
      parseLeft := parseLeft - 1;
      parsed := parsed + 1;
    }

    /** get_tag_insert: the handler's answer for the first registered tag that has
        this name, or the marker for an unknown tag. */
    method GetTagInsert()
      requires !freed && Shape() && tagNameLen <= MAX_TAG_NAME_LEN && tagName[tagNameLen] == NUL
      modifies `tagInsertLen, `calls, tagInsert
      ensures tagInsertLen <= MAX_TAG_INSERT_LEN
      ensures tagInsert[..tagInsertLen] == cfg.InsertFor(old(calls), tagName[..tagNameLen])
      // the handler is asked for the tag that it has registered under this name, if it has one
      ensures var name, insert := tagName[..tagNameLen], tagInsert[..tagInsertLen];
              (forall i: nat :: cfg.handler.Some? && cfg.Registers(name, i) ==>
                 insert == cfg.handler.value(old(calls), i)) &&
              (cfg.Ignores(name) ==> insert == "<b>***UNKNOWN TAG " + CString(name) + "***</b>")
      ensures calls == old(calls) + 1
    {
      ghost var name := tagName[..tagNameLen];
      cfg.InsertIs(calls, name);
      var text := CString(tagName[..]);
      CStringOfBuffer(tagName[..], tagNameLen);
      var call := calls;
      calls := calls + 1;
      if cfg.handler.Some? {
        for loop := 0 to |cfg.tags|
          invariant cfg.Lookup(name, 0) == cfg.Lookup(name, loop)
        {
          if text == CString(cfg.tags[loop]) {
            FillInsert(cfg.handler.value(call, loop));
            return;
          }
        }
      }
      FillInsert("<b>***UNKNOWN TAG " + text + "***</b>");
    }

    method FillInsert(text: string)
      requires !freed && |text| <= MAX_TAG_INSERT_LEN < tagInsert.Length
      modifies `tagInsertLen, tagInsert
      ensures tagInsertLen == |text| && tagInsert[..tagInsertLen] == text
    {
      forall i | 0 <= i < |text| { tagInsert[i] := text[i]; }
      tagInsertLen := |text|;
    }

    /** A tag has just been completed: its insert is fetched, and the file bytes up
        to the tag's end are offered. */
    method StartSending(pcb: Pcb, len0: nat) returns (len: nat, err: Err)
      requires Shape() && !freed && tagNameLen <= MAX_TAG_NAME_LEN && tagName[tagNameLen] == NUL
      requires file < parsed && file + left == parsed + parseLeft == |block|
      requires Track(cfg, block, file, parsed, Idle, calls + 1,
                     cfg.InsertFor(calls, tagName[..tagNameLen]), pcb.out)
      modifies `tagState, `tagIndex, `tagInsertLen, `tagEnd, `calls, `file, `left,
               tagInsert, pcb`sndbuf, pcb`out, pcb`refused, pcb`short
      ensures Tracking(pcb.out) && tagState == Sending && tagIndex == 0 && pcb.Spent()
      ensures old(file) <= file && |pcb.out| - old(|pcb.out|) == file - old(file)
      ensures err != ErrOk ==> pcb.refused > old(pcb.refused)
      ensures err == ErrOk ==> len <= len0 && (len0 > 0 ==> len > 0) && file == old(file) + len
      ensures len0 == 0 && pcb.writable ==> err == ErrOk
      ensures len0 <= old(pcb.sndbuf) && pcb.refused > old(pcb.refused) ==> pcb.short > old(pcb.short)
    {
      hide Track, AsHalved;
      len, err := len0, ErrOk;
      GetTagInsert();
      tagIndex := 0;
      tagState := Sending;
      tagEnd := parsed;
      assert Pending() == tagInsert[..tagInsertLen];
      if tagEnd > file {
        if len > tagEnd - file { len := tagEnd - file; }
        len, err := SendFile(pcb, len);
      }
    }

    /** Reading the lead-out; the byte that completes it starts the sending. */
    method PassLeadOut(pcb: Pcb, len0: nat) returns (len: nat, err: Err)
      requires Tracking(pcb.out) && tagState == InLeadOut && parseLeft > 0
      modifies `tagState, `tagIndex, `tagInsertLen, `tagEnd, `calls, `parsed, `parseLeft, `file, `left,
               tagInsert, pcb`sndbuf, pcb`out, pcb`refused, pcb`short
      ensures Tracking(pcb.out) && parseLeft == old(parseLeft) - 1 && pcb.Spent()
      ensures TagAt(block, parsed).Some? <==> tagState == Sending
      ensures tagState == Sending ==> tagIndex == 0
      ensures old(file) <= file && |pcb.out| - old(|pcb.out|) == file - old(file)
      ensures err != ErrOk ==> pcb.refused > old(pcb.refused)
      ensures err == ErrOk ==> len <= len0 && (len0 > 0 ==> len > 0)
      ensures tagState == Sending && len0 > 0 && err == ErrOk ==> file > old(file)
      ensures tagState != Sending ==> err == ErrOk && file == old(file) && pcb.out == old(pcb.out) && len == len0
      ensures len0 == 0 && err == ErrOk ==> file == old(file)
      ensures len0 == 0 && pcb.writable ==> err == ErrOk
      ensures len0 <= old(pcb.sndbuf) && pcb.refused > old(pcb.refused) ==> pcb.short > old(pcb.short)
    {
      hide Track, TagAt, ScanAt;
      len, err := len0, ErrOk;
      TrackByte(cfg, block, file, parsed, Memory(), calls, pcb.out);
      var c := block[parsed];
      if tagIndex == 0 && IsSpace(c) {
        parseLeft := parseLeft - 1;
        parsed := parsed + 1;
        return;
      }
      parseLeft := parseLeft - 1;
      parsed := parsed + 1;
      if c == LEAD_OUT[tagIndex] {
        if tagIndex == |LEAD_OUT| - 1 {
          len, err := StartSending(pcb, len0);
        } else {
          tagIndex := tagIndex + 1;
        }
      } else {
        tagState := NoTag;
      }
    }

    /** Offers `len0` of the remaining bytes of the insert. */
    method SendInsert(pcb: Pcb, len0: nat) returns (len: nat, err: Err)
      requires Tracking(pcb.out) && tagState == Sending && parseLeft > 0 && file == parsed
      requires len0 <= tagInsertLen - tagIndex
      modifies `tagIndex, pcb`sndbuf, pcb`out, pcb`refused, pcb`short
      ensures Tracking(pcb.out) && pcb.Spent()
      ensures len <= len0
      ensures err == ErrOk ==> tagIndex == old(tagIndex) + len && |pcb.out| == old(|pcb.out|) + len
                               && (len == len0 || 1 < len)
      ensures err != ErrOk ==> pcb.out == old(pcb.out) && tagIndex == old(tagIndex) && pcb.refused > old(pcb.refused)
      ensures len0 == 0 && pcb.writable ==> err == ErrOk
      ensures len0 <= old(pcb.sndbuf) && pcb.refused > old(pcb.refused) ==> pcb.short > old(pcb.short)
      ensures AsHalved(len0, old(pcb.sndbuf), pcb.refused - old(pcb.refused), pcb.short - old(pcb.short), len, err)
    {
      hide Track, AsHalved;
      ghost var rest := Pending();
      len, err := WriteHalving(pcb, tagInsert[tagIndex..tagInsertLen], len0);
      HalvedGives(len0, old(pcb.sndbuf), pcb.refused - old(pcb.refused), pcb.short - old(pcb.short), len, err);
      if err == ErrOk {
        TrackInsert(cfg, block, parsed, Memory(), calls, rest, old(pcb.out), len);
        assert rest[len..] == tagInsert[tagIndex + len..tagInsertLen];
        tagIndex := tagIndex + len;
      }
    }

    /** Sending up to the tag's end, then the insert; the scan resumes after it.
        `done` tells that send_data returns at once. */
    method PassSending(pcb: Pcb, len0: nat) returns (len: nat, err: Err, done: bool)
      requires Tracking(pcb.out) && tagState == Sending && parseLeft > 0
      modifies `tagState, `tagIndex, `file, `left, pcb`sndbuf, pcb`out, pcb`refused, pcb`short
      ensures Tracking(pcb.out) && pcb.Spent() && old(file) <= file
      ensures |pcb.out| - old(|pcb.out|) == if done then tagIndex - old(tagIndex) else file - old(file)
      ensures !done && tagState == Sending ==> tagIndex == old(tagIndex)
      ensures err != ErrOk ==> pcb.refused > old(pcb.refused)
      ensures len0 <= old(pcb.sndbuf) && pcb.refused > old(pcb.refused) ==> pcb.short > old(pcb.short)
      ensures err == ErrOk ==> len <= len0 && (len0 > 0 ==> len > 0)
      ensures err == ErrOk && tagState == Sending && !done ==>
                tagIndex == 0 && file == old(file) + len && pcb.out == old(pcb.out) + block[old(file)..file]
      ensures tagState != Sending ==>
                tagState == NoTag && err == ErrOk && !done && len == len0 && file == old(file) == parsed
                && pcb.out == old(pcb.out) && pcb.sndbuf == old(pcb.sndbuf) && pcb.refused == old(pcb.refused)
      ensures err != ErrOk ==> !done
      ensures done ==> old(file == parsed && tagIndex < tagInsertLen) && file == old(file)
      ensures done && len0 > 0 ==> |pcb.out| > old(|pcb.out|)
      ensures len0 == 0 && pcb.writable ==> err == ErrOk && file == old(file)
      ensures !pcb.writable && old(file < parsed) ==> err != ErrOk
      ensures len0 == 0 && pcb.writable && old(tagIndex == tagInsertLen || file < parsed) ==> !done
      ensures old(file < parsed) ==> tagState == Sending && !done
      ensures old(file == parsed && tagIndex < tagInsertLen) ==> tagState == Sending && (done || err != ErrOk)
      ensures old(file == parsed && tagIndex == tagInsertLen) ==> tagState == NoTag
    {
      hide Track, AsHalved;
      len, err, done := len0, ErrOk, false;
      if tagEnd > file {
        if len > tagEnd - file { len := tagEnd - file; }
        len, err := SendFile(pcb, len);
      } else if tagIndex < tagInsertLen {
        if len > tagInsertLen - tagIndex { len := tagInsertLen - tagIndex; }
        len, err := SendInsert(pcb, len);
        done := err == ErrOk;
      } else {
        assert Pending() == "";
        tagIndex := 0;
        tagState := NoTag;
      }
    }

    // ------------------------------------------------------------ the scan loop

    /** With no room in the send buffer: file bytes before a tag are due, a write of
        none of them succeeds, and the loop condition stays true. */
    predicate Spinning(pcb: Pcb, len: nat)
      reads this, pcb
    {
      tagState == Sending && tagEnd > file && len == 0 && parseLeft > 0 && pcb.writable
    }

    /** The scan loop, entered now with chunk size `len`, comes to spin. */
    ghost predicate WillStall(pcb: Pcb, len: nat)
      reads this, pcb`writable
    {
      len == 0 && pcb.writable && parseLeft > 0 &&
      ((tagState == Sending && file < parsed) ||
       (TagAhead(block, parsed) && (tagState == Sending ==> tagIndex == tagInsertLen)))
    }

    ghost function Rank(): nat
      reads this
    {
      match tagState case Sending => 2 case InLeadIn => 1 case _ => 0
    }

    ghost predicate Advanced(parseLeft0: nat, rank0: nat, unsent0: nat)
      requires Cursor()
      reads this
    {
      parseLeft < parseLeft0 ||
      (parseLeft == parseLeft0 && (Rank() < rank0 || (Rank() == rank0 && parsed - file < unsent0)))
    }

    /** One turn of the loop. */
    method ScanPass(pcb: Pcb, len0: nat) returns (len: nat, err: Err, done: bool)
      requires Tracking(pcb.out) && parseLeft > 0
      modifies `tagState, `tagIndex, `tagNameLen, `tagInsertLen, `tagEnd, `calls, `parsed, `parseLeft,
               `file, `left, tagName, tagInsert, pcb`sndbuf, pcb`out, pcb`refused, pcb`short
      ensures Tracking(pcb.out) && pcb.Spent() && old(file) <= file
      // what is accepted are file bytes, or else a piece of the insert, which ends the call
      ensures |pcb.out| - old(|pcb.out|) == if done then tagIndex - old(tagIndex) else file - old(file)
      ensures done ==> old(tagState) == tagState == Sending && old(file) == file == parsed
      ensures !done && tagState == Sending ==> tagIndex == if old(tagState) == Sending then old(tagIndex) else 0
      ensures err != ErrOk ==> pcb.refused > old(pcb.refused)
      ensures len0 <= old(pcb.sndbuf) && pcb.refused > old(pcb.refused) ==> pcb.short > old(pcb.short)
      ensures err == ErrOk ==> len <= len0 && (len0 > 0 ==> len > 0)
      ensures done ==> err == ErrOk && (len0 > 0 ==> |pcb.out| > old(|pcb.out|))
      // a turn that does not end the loop moves on, except when it spins: then it changes nothing
      ensures err == ErrOk && !done && !old(Spinning(pcb, len0)) ==>
                Advanced(old(parseLeft), old(Rank()), old(parsed - file))
      ensures old(Spinning(pcb, len0)) ==>
                err == ErrOk && !done && len == len0 && Spinning(pcb, len) &&
                pcb.out == old(pcb.out) && file == old(file) && parsed == old(parsed) && tagIndex == old(tagIndex)
      ensures err == ErrOk && !done ==> (WillStall(pcb, len) <==> old(WillStall(pcb, len0)))
      ensures err != ErrOk || done ==> !old(WillStall(pcb, len0))
      // a turn in which nothing is accepted or refused leaves no file byte due before a tag
      ensures len0 > 0 && |pcb.out| == old(|pcb.out|) && pcb.refused == old(pcb.refused)
              && old(tagState == Sending ==> file == parsed) ==>
                err == ErrOk && !done && file == old(file) && (tagState == Sending ==> file == parsed)
    {
      hide Track, TagAt, TagAhead;
      len, err, done := len0, ErrOk, false;
      TagAheadStep(block, parsed);
      match tagState {
        case NoTag => PassNone(pcb.out);
        case InLeadIn => PassLeadIn(pcb.out);
        case InName => PassFound(pcb.out);
        case InLeadOut => len, err := PassLeadOut(pcb, len0);
        case Sending => len, err, done := PassSending(pcb, len0);
      }
    }

    /** The loop that parses the rest of the file.  A turn that spins is never left:
        the method then returns `hung`, where the source never returns. */
    method ScanLoop(pcb: Pcb, len0: nat) returns (err: Err, done: bool, hung: bool)
      requires Tracking(pcb.out)
      modifies `tagState, `tagIndex, `tagNameLen, `tagInsertLen, `tagEnd, `calls, `parsed, `parseLeft,
               `file, `left, tagName, tagInsert, pcb`sndbuf, pcb`out, pcb`refused, pcb`short
      ensures Tracking(pcb.out) && pcb.Spent() && old(file) <= file
      ensures hung <==> old(WillStall(pcb, len0))
      ensures err != ErrOk ==> pcb.refused > old(pcb.refused)
      ensures !hung && !done && err == ErrOk ==> parseLeft == 0
      // a scan that begins with a chunk within the room accepts a byte, or has it refused
      // for want of memory, or only reads on
      ensures 0 < len0 <= old(pcb.sndbuf) && |pcb.out| == old(|pcb.out|) && pcb.short == old(pcb.short)
              && old(tagState == Sending ==> file == parsed) ==>
                !done && !hung && err == ErrOk && file == old(file) && (tagState == Sending ==> file == parsed)
      ensures old(tagState) != Sending ==>
                |pcb.out| - old(|pcb.out|) == file - old(file) + if done then tagIndex else 0
      ensures done ==> tagState == Sending && file == parsed
      ensures done && old(tagState) != Sending && len0 > 0 ==> tagIndex > 0
    {
      hide Track, TagAt, TagAhead;
      var len: nat := len0;
      err, done, hung := ErrOk, false, false;
      while parseLeft > 0 && err == ErrOk
        invariant Tracking(pcb.out) && !done && !hung && pcb.Spent() && old(file) <= file
        invariant err == ErrOk ==> (WillStall(pcb, len) <==> old(WillStall(pcb, len0)))
        invariant err != ErrOk ==> !old(WillStall(pcb, len0))
        invariant err != ErrOk ==> pcb.refused > old(pcb.refused)
        invariant err == ErrOk ==> len <= len0 && (len0 > 0 ==> len > 0)
        invariant old(tagState) != Sending ==>
                    |pcb.out| - old(|pcb.out|) == file - old(file) && (tagState == Sending ==> tagIndex == 0)
        invariant 0 < len0 <= old(pcb.sndbuf) && |pcb.out| == old(|pcb.out|) && pcb.short == old(pcb.short)
                  && old(tagState == Sending ==> file == parsed) ==>
                    err == ErrOk && file == old(file) && (tagState == Sending ==> file == parsed)
        decreases if err == ErrOk then 1 else 0, parseLeft, Rank(), parsed - file
      {
        if Spinning(pcb, len) {
          hung := true;
          return;
        }
        len, err, done := ScanPass(pcb, len);
        if done {
          return;
        }
      }
    }

    // -------------------------------------------------------------- send_data

    /** The size of a chunk of `unsent` bytes: at most the room left and two segments. */
    static function ChunkLen(pcb: Pcb, unsent: nat): (len: nat)
      reads pcb
      ensures len <= unsent && len <= pcb.sndbuf && len <= 2 * pcb.mss
      ensures len == unsent || len == pcb.sndbuf || len == 2 * pcb.mss
      ensures pcb.sndbuf > 0 && unsent > 0 ==> len > 0
    {
      var len := if pcb.sndbuf < unsent then pcb.sndbuf else unsent;
      if len > 2 * pcb.mss then 2 * pcb.mss else len
    }

    /** Nothing is left over of what an earlier call has scanned. */
    ghost predicate FreshScan()
      reads this
    {
      tagState != Sending && file == parsed
    }

    /** How a call ends that began with a fresh scan and had no write refused, `accepted`
        bytes later: the file is scanned to its end, or a piece of an insert is sent. */
    ghost predicate RanOut(file0: nat, accepted: nat)
      reads this
    {
      (parseLeft == 0 && file0 + accepted == file) ||
      (tagState == Sending && file == parsed && tagIndex > 0 && file0 + accepted == file + tagIndex)
    }

    /** send_data on a file with tags: first what was scanned before, then the scan,
        then what the scan has passed over. */
    method SendSsi(pcb: Pcb) returns (hung: bool)
      requires Tracking(pcb.out) && left > 0
      modifies `tagState, `tagIndex, `tagNameLen, `tagInsertLen, `tagEnd, `calls, `parsed, `parseLeft,
               `file, `left, tagName, tagInsert, pcb`sndbuf, pcb`out, pcb`refused, pcb`short
      ensures Tracking(pcb.out) && pcb.Spent()
      ensures hung <==> old(pcb.sndbuf == 0 && file == parsed && WillStall(pcb, 0))
      ensures old(pcb.sndbuf) > 0 ==> |pcb.out| > old(|pcb.out|) || pcb.short > old(pcb.short)
      ensures old(pcb.sndbuf > 0 && FreshScan()) && pcb.refused == old(pcb.refused) ==>
                RanOut(old(file), |pcb.out| - old(|pcb.out|))
      // with none refused, it stops for want of room, in an insert, at the file's end, or when
      // it has sent two segments, and sends at least the chunk due of what was scanned before
      ensures pcb.refused == old(pcb.refused) && !hung ==>
                pcb.sndbuf == 0 || tagState == Sending || left == 0 || |pcb.out| - old(|pcb.out|) >= 2 * pcb.mss
      ensures pcb.refused == old(pcb.refused) ==> |pcb.out| >= old(|pcb.out| + ChunkLen(pcb, parsed - file))
    {
      hide Track, TagAt, TagAhead, AsHalved;
      hung := false;
      var len := pcb.sndbuf;
      var err := ErrOk;
      if parsed > file {
        len := ChunkLen(pcb, parsed - file);
        len, err := SendFile(pcb, len);
        if pcb.sndbuf == 0 {
          return;
        }
      }
      if err == ErrOk {
        var done;
        err, done, hung := ScanLoop(pcb, len);
        if done || hung {
          return;
        }
      }
      if tagState != Sending && parsed > file {
        len := ChunkLen(pcb, parsed - file);
        len, err := SendFile(pcb, len);
      }
    }

    /** A file without tags is sent as it is. */
    ghost predicate Plain(out: string)
      reads this
    {
      !freed && file + left == |block| && out == block[..file]
    }

    method SendPlain(pcb: Pcb) returns (len: nat, err: Err)
      requires Plain(pcb.out) && left > 0
      modifies `file, `left, pcb`sndbuf, pcb`out, pcb`refused, pcb`short
      ensures Plain(pcb.out) && pcb.Spent()
      ensures old(pcb.sndbuf) > 0 ==> |pcb.out| > old(|pcb.out|) || pcb.short > old(pcb.short)
      ensures AsHalved(old(ChunkLen(pcb, left)), old(pcb.sndbuf), pcb.refused - old(pcb.refused),
                       pcb.short - old(pcb.short), len, err)
      ensures |pcb.out| == old(|pcb.out|) + if err == ErrOk then len else 0
    {
      hide AsHalved;
      len, err := WriteHalving(pcb, block[file..], ChunkLen(pcb, left));
      HalvedGives(old(ChunkLen(pcb, left)), old(pcb.sndbuf), pcb.refused - old(pcb.refused),
                  pcb.short - old(pcb.short), len, err);
      if err == ErrOk {
        file := file + len;
        left := left - len;
      }
    }

    /** The open file is being served: what has been accepted is right so far. */
    ghost predicate Serving(out: string)
      reads this, tagName, tagInsert
    {
      if tagCheck then Tracking(out) else Plain(out)
    }

    /** All that the client is to receive. */
    ghost function Stream(): string
      reads this
    {
      if tagCheck then Expand(cfg, block) else block
    }

    /** At every moment the client has a prefix of the stream, and the file has no
        byte left exactly when the client has it all. */
    lemma ServedPrefix(out: string)
      requires Serving(out)
      ensures out <= Stream()
      ensures left == 0 <==> out == Stream()
    {
      hide Track, Expand;
      if tagCheck {
        TrackBound(cfg, block, file, parsed, Memory(), calls, Pending(), out);
      }
    }

    /** The connection's state is allocated, and serves its file if it has one. */
    ghost predicate Live(out: string)
      reads this, tagName, tagInsert
    {
      !freed && !bufFreed && Shape() && retries < 4 &&
      if handle.Some? then Serving(out) else left == 0 && out == ""
    }

    /** A call of send_data made now never returns. */
    ghost predicate WindowStall(pcb: Pcb)
      reads this, pcb`sndbuf, pcb`writable
    {
      tagCheck && left > 0 && pcb.sndbuf == 0 && file == parsed && WillStall(pcb, 0)
    }

    /** Starting on a file, as http_recv does once it has opened one. */
    method StartFile(slot: nat, data: string)
      requires !freed && Shape()
      modifies `tagIndex, `tagState, `parsed, `parseLeft, `tagEnd, `calls, `handle, `block, `file, `left, `retries
      ensures Serving("") && handle == Some(slot) && block == data && retries == 0
      ensures file == 0 && parsed == 0 && tagState == NoTag && left == parseLeft == |data|
    {
      hide *;
      tagIndex := 0;
      tagState := NoTag;
      parsed := 0;
      parseLeft := |data|;
      tagEnd := 0;
      calls := 0;
      handle := Some(slot);
      block := data;
      file := 0;
      left := |data|;
      retries := 0;
      StartsTracking();
    }

    /** When no file can be opened, there is nothing to send. */
    method StartNothing(ghost out: string)
      requires !freed && !bufFreed && Shape() && out == ""
      modifies `handle, `file, `left, `retries
      ensures Live(out) && handle == None && left == 0 && retries == 0
    {
      handle := None;
      file := 0;
      left := 0;
      retries := 0;
    }

    /** Sets the poll counter, which the sending does not depend on. */
    method SetRetries(n: nat, ghost pcb: Pcb)
      requires Live(pcb.out)
      modifies `retries
      ensures retries == n && (n < 4 ==> Live(pcb.out)) && Stream() == old(Stream())
      ensures WindowStall(pcb) <==> old(WindowStall(pcb))
    {
      hide Track, Expand, TagAhead;
      retries := n;
    }

    lemma StartsTracking()
      requires !freed && Shape() && tagState == NoTag && file == parsed == 0
      requires left == parseLeft == |block| && calls == 0
      ensures Serving("")
    {
      hide Track, Expand;
      TrackStart(cfg, block);
      var memory, pending := Memory(), Pending();
      assert memory == Idle && pending == "";
    }

    // ----------------------------------------------------------------- memory

    /** All that the object holds. */
    ghost function Image(): Snapshot
      reads this, Arrays()
    {
      Snapshot(handle, block, file, left, parsed, parseLeft, tagEnd, buf, bufFreed, retries, tagCheck,
            tagIndex, tagInsertLen, tagNameLen, tagState, calls,
            params[..], paramVals[..], tagName[..], tagInsert[..])
    }

    /** A freed object has been left alone since. */
    ghost predicate Untouched()
      reads this, Arrays()
    {
      freed ==> Image() == grave
    }

    method MemFree()
      requires !freed
      modifies `freed, `grave
      ensures freed && grave == Image() == old(Image())
    {
      freed := true;
      grave := Image();
    }

    method MemFreeBuf()
      requires !freed && !bufFreed && buf.Some?
      modifies `bufFreed
      ensures bufFreed
    {
      bufFreed := true;
    }

    /** The allocation of a read buffer, of two segments or half as often as needed. */
    method AllocateBuf(pcb: Pcb)
      requires buf == None && Live(pcb.out)
      modifies `buf, pcb`lacks
      ensures Live(pcb.out) && Stream() == old(Stream()) && pcb.lacks >= old(pcb.lacks)
      // after each failure half as much is asked for, while that is more than 100 bytes
      ensures var failures, whole := pcb.lacks - old(pcb.lacks), 2 * pcb.mss;
              (buf.Some? ==> buf.value == Halve(whole, failures) && (failures > 0 ==> buf.value > 100)) &&
              (buf.None? ==> failures > 0 && Halve(whole, failures) <= 100
                             && (failures > 1 ==> Halve(whole, failures - 1) > 100))
    {
      hide Track, Expand;
      var count: nat := 2 * pcb.mss;
      var first := true;
      while first || count > 100
        invariant buf == None && Live(pcb.out) && pcb.lacks >= old(pcb.lacks)
        invariant count == Halve(2 * pcb.mss, pcb.lacks - old(pcb.lacks)) && (first <==> pcb.lacks == old(pcb.lacks))
        invariant pcb.lacks > old(pcb.lacks) + 1 ==> Halve(2 * pcb.mss, pcb.lacks - old(pcb.lacks) - 1) > 100
        decreases first, count
      {
        first := false;
        var granted: bool := *;
        if granted {
          buf := Some(count);
          return;
        }
        pcb.lacks := pcb.lacks + 1;
        count := count / 2;
      }
    }
  }
}
