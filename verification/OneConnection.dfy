/** One connection by itself: how soon a file is sent, and how a call comes to hang. */
module OneConnection {
  import opened Base
  import opened TagScanner
  import opened Expansion
  import opened Streaming
  import opened Tcp
  import opened FileSystem
  import opened Request
  import opened Httpd
  import opened Connection

  /** Calls send_data, with room at each call, until the file is sent, or until more than
      `patience` calls for memory have failed: writes of chunks that fit, and allocations of a
      buffer.  Writes that ask for more than the room left neither stop it nor count. */
  method ServeToEnd(pcb: Pcb, hs: HttpState, fs: FsMemory, patience: nat) returns (complete: bool, turns: nat)
    requires Consistent(pcb, fs) && pcb.arg == Some(hs) && hs.handle.Some?
    modifies pcb, hs, hs.Arrays(), fs.memory
    ensures Consistent(pcb, fs) && SameRequest(pcb)
    ensures pcb.short >= old(pcb.short) && pcb.lacks >= old(pcb.lacks)
    ensures var failed := pcb.short - old(pcb.short) + pcb.lacks - old(pcb.lacks);
            turns <= |pcb.due| - old(|pcb.out|) + failed + 1 &&
            if complete then GivenUp(pcb, hs) && pcb.out == pcb.due else failed > patience
  {
    hide HttpState.Serving, HttpState.Stream, HttpState.FreshScan, HttpState.RanOut, HttpState.Untouched,
         HttpState.ChunkLen;
    complete, turns := false, 0;
    var failed0 := pcb.short + pcb.lacks;
    while pcb.short + pcb.lacks - failed0 <= patience
      invariant Consistent(pcb, fs) && pcb.arg == Some(hs) && hs.handle.Some? && SameRequest(pcb)
      invariant pcb.short >= old(pcb.short) && pcb.lacks >= old(pcb.lacks)
      invariant turns + old(|pcb.out|) <= |pcb.out| + pcb.short + pcb.lacks - failed0
      decreases |pcb.due| - |pcb.out| + patience + failed0 - pcb.short - pcb.lacks
    {
      pcb.OpenWindow();
      hs.ServedPrefix(pcb.out);
      var closed, hung := SendData(pcb, hs, fs);
      turns := turns + 1;
      if closed {
        complete := true;
        return;
      }
    }
  }

  // ------------------------------------------------------------- a call that hangs

  const SPIN_TAG: string := "<!--#x-->"

  /** Two adjacent tags with text behind them.  The first ends one byte before the send
      buffer of a new connection is full. */
  function SpinPage(): (d: string)
    ensures |d| == 521 && d[502..511] == SPIN_TAG == d[511..520] && d[520] == '.'
    ensures forall i :: 0 <= i < 502 ==> d[i] != LEAD_IN[0]
  {
    var d := seq(502, _ => 'a') + SPIN_TAG + SPIN_TAG + ".";
    assert d[502..511] == SPIN_TAG == d[511..520];
    d
  }

  /** A handler that answers with one byte. */
  function OneByte(call: nat, index: nat): Insert {
    "0"
  }

  function SpinConfig(): (cfg: SsiConfig)
    ensures |cfg.InsertFor(0, "x")| == 1
  {
    var cfg := SsiConfig(["x"], Some(OneByte));
    assert cfg.Lookup("x", 0) == Some(0);
    cfg
  }

  /** Text without `<` keeps the scanner idle. */
  lemma {:induction false} IdleWithoutBracket(d: string, p: nat)
    requires p <= |d| && forall i :: 0 <= i < p ==> d[i] != LEAD_IN[0]
    ensures ScanAt(d, p) == Idle && forall i :: 0 <= i <= p ==> TagAt(d, i).None?
  {
    if p > 0 {
      IdleWithoutBracket(d, p - 1);
    }
  }

  /** A tag at an idle position. */
  lemma TagHere(d: string, b: nat)
    requires b + 9 <= |d| && ScanAt(d, b) == Idle && d[b..b + 9] == SPIN_TAG
    ensures TagAt(d, b + 9) == Some("x") && ScanAt(d, b + 9) == Idle
    ensures forall i :: b < i < b + 9 ==> TagAt(d, i).None?
  {
    hide ScanAt, TagAt;
    var t := SPIN_TAG;
    ShortestTag();
    assert t[..9] == t;
    TagFrom(d, b, t, "x", 9);
    forall i | b < i < b + 9 ensures TagAt(d, i).None? {
      assert d[b..i] == d[b..b + 9][..i - b] == t[..i - b];
      TagFrom(d, b, t, "x", i - b);
    }
  }

  /** The stream keeps up with the file. */
  lemma {:induction false} FullKeepsUp(cfg: SsiConfig, d: string, p: nat, q: nat)
    requires p <= q <= |d|
    ensures |Full(cfg, d, q)| - q >= |Full(cfg, d, p)| - p
  {
    hide InsertAt;
    if p < q {
      FullKeepsUp(cfg, d, p, q - 1);
    }
  }

  /** Where the tags of the page end. */
  lemma SpinPageTags()
    ensures var d := SpinPage();
            TagAt(d, 511) == Some("x") && TagAt(d, 520).Some? && TagAt(d, 521).None? &&
            forall i :: 0 <= i < 511 ==> TagAt(d, i).None?
  {
    hide ScanAt, TagAt, SpinPage;
    var d := SpinPage();
    IdleWithoutBracket(d, 502);
    TagHere(d, 502);
    TagHere(d, 511);
    NoTagFromIdle(d, 521);
  }

  /** The stream of the page is ahead of the file from the end of the first tag on, and
      exactly there by one byte. */
  lemma SpinPageStream(p: nat)
    requires p <= 521
    ensures var d, cfg := SpinPage(), SpinConfig();
            InsertAt(cfg, d, 521) == "" && TagAhead(d, 511) &&
            (p < 511 ==> |Full(cfg, d, p)| == p) && (p == 511 ==> |Full(cfg, d, p)| == 512) &&
            (p > 511 ==> |Full(cfg, d, p)| > p)
  {
    hide TagAt, SpinPage, SpinConfig, TagCount, Full, SsiConfig.InsertFor;
    var d, cfg := SpinPage(), SpinConfig();
    SpinPageTags();
    FullOfPlainText(cfg, d, 0, 510);
    FullStep(cfg, d, 511);
    NothingYet(cfg, d);
    if p < 511 {
      FullOfPlainText(cfg, d, 0, p);
    } else {
      FullKeepsUp(cfg, d, 511, p);
    }
  }

  lemma NothingYet(cfg: SsiConfig, d: string)
    ensures Full(cfg, d, 0) == "" && TagCount(d, 0) == 0
  {
  }

  /** Where a call on the page has ended that no refusal stopped, the next one hangs. */
  lemma SpinsNext(pcb: Pcb, hs: HttpState)
    requires hs.Tracking(pcb.out) && hs.tagCheck && hs.block == SpinPage() && hs.cfg == SpinConfig()
    requires hs.RanOut(0, |pcb.out|) && pcb.sndbuf + |pcb.out| == TCP_SND_BUF && pcb.writable
    ensures hs.WindowStall(pcb)
  {
    hide TagAhead, ScanAt, TagCount, Full, InsertAt, SpinPage, SpinConfig;
    SpinPageStream(hs.parsed);
    assert |pcb.out| + (hs.parsed - hs.file) + |hs.Pending()| == |Full(hs.cfg, hs.block, hs.parsed)|;
  }

  /** The first call on the page sends up to the first insert, which fills the send buffer. */
  method FirstCall(pcb: Pcb, hs: HttpState, fs: FsMemory)
    requires Consistent(pcb, fs) && pcb.arg == Some(hs) && hs.cfg == SpinConfig() && hs.tagCheck
    requires hs.handle.Some? && hs.block == SpinPage() && hs.left == 521 && hs.FreshScan() && hs.file == 0
    requires pcb.out == "" && pcb.sndbuf == TCP_SND_BUF && pcb.writable && pcb.refused == 0
    modifies pcb, hs, hs.Arrays(), fs.memory
    ensures Consistent(pcb, fs) && pcb.alive && pcb.arg == Some(hs) && hs.handle.Some? && hs.retries == old(hs.retries)
    ensures pcb.refused == 0 ==> hs.WindowStall(pcb)
  {
    hide SpinPage, SpinConfig, HttpState.Stream, HttpState.WindowStall, HttpState.RanOut, HttpState.Tracking;
    var closed, hung := SendData(pcb, hs, fs);
    if pcb.refused == 0 {
      SpinsNext(pcb, hs);
    }
  }

  /** A new connection is given the page. */
  method GivePage(mss: Mss) returns (pcb: Pcb, hs: HttpState, fs: FsMemory)
    ensures fresh(pcb) && fresh(hs) && fresh(hs.Arrays()) && fresh(fs.memory)
    ensures Consistent(pcb, fs) && pcb.arg == Some(hs) && hs.cfg == SpinConfig() && hs.tagCheck
    ensures hs.handle.Some? && hs.block == SpinPage() && hs.left == 521 && hs.FreshScan() && hs.file == hs.retries == 0
    ensures pcb.out == "" && pcb.sndbuf == TCP_SND_BUF && pcb.writable && pcb.refused == 0
  {
    hide SpinPage, SpinConfig, HttpState.Serving, HttpState.Stream;
    var page := SpinPage();
    fs := new FsMemory([FsData("/a.shtml", page)]);
    pcb := new TcpPcb<HttpState>(mss);
    hs := new HttpState(SpinConfig());
    pcb.arg, pcb.recvSet := Some(hs), true;
    fs.memory[0] := OpenSlot(page);
    Begin(pcb, hs, fs, 0, true, "");
  }

  /** After the first call on the page, the stack polls before any byte has been
      acknowledged: unless a write was refused, http_poll does not return. */
  method ClosedWindowSpins(mss: Mss) returns (hung: bool, refused: nat)
    ensures refused == 0 ==> hung
  {
    hide SpinPage, SpinConfig, HttpState.Live, HttpState.Stream, HttpState.WindowStall, HttpState.FreshScan;
    var pcb, hs, fs := GivePage(mss);
    FirstCall(pcb, hs, fs);
    refused := pcb.refused;
    hung := HttpPoll(pcb, fs);
  }
}
