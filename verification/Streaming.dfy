/** What an interruptible sender must keep: the bytes already accepted, followed by
    what it still owes for the text it has scanned, make up the expanded text. */
module Streaming {
  import opened TagScanner
  import opened Expansion

  /** For file `d`: `d[..p]` has been scanned, `d[..f]` has been sent, `pending` is
      what remains of the insert due after `d[p - 1]`, and `out` has been accepted. */
  ghost predicate Track(cfg: SsiConfig, d: string, f: nat, p: nat, memory: Scan, calls: nat,
                        pending: string, out: string)
  {
    f <= p <= |d| &&
    memory == ScanAt(d, p) &&
    calls == TagCount(d, p) &&
    out + d[f..p] + pending == Full(cfg, d, p) &&
    (p == |d| ==> pending == InsertAt(cfg, d, p))
  }

  lemma TrackStart(cfg: SsiConfig, d: string)
    ensures Track(cfg, d, 0, 0, Idle, 0, "", "")
  {
  }

  /** Scanning one more byte. */
  lemma TrackByte(cfg: SsiConfig, d: string, f: nat, p: nat, memory: Scan, calls: nat, out: string)
    requires p < |d| && Track(cfg, d, f, p, memory, calls, "", out)
    ensures var (memory', tag) := Step(memory, d[p]);
            TagAt(d, p + 1) == tag &&
            match tag
            case None => Track(cfg, d, f, p + 1, memory', calls, "", out)
            case Some(name) =>
              memory' == Idle && Track(cfg, d, f, p + 1, memory', calls + 1, cfg.InsertFor(calls, name), out)
  {
    hide ScanAt, TagAt, TagCount, InsertAt, Full, Step, SsiConfig.InsertFor;
    ScanStep(d, p + 1);
    TagStep(cfg, d, p + 1);
    OneMoreByte(cfg, d, f, p, out);
    if Step(memory, d[p]).1.Some? { NoTagOutsideLeadOut(memory, d[p]); }
  }

  lemma NoTagOutsideLeadOut(memory: Scan, c: char)
    requires Step(memory, c).1.Some?
    ensures Step(memory, c).0 == Idle
  {
  }

  lemma TagStep(cfg: SsiConfig, d: string, p: nat)
    requires 0 < p <= |d|
    ensures match TagAt(d, p)
            case None => InsertAt(cfg, d, p) == "" && TagCount(d, p) == TagCount(d, p - 1)
            case Some(name) => InsertAt(cfg, d, p) == cfg.InsertFor(TagCount(d, p - 1), name) &&
                               TagCount(d, p) == TagCount(d, p - 1) + 1
  {
    hide TagAt, SsiConfig.InsertFor;
  }

  lemma OneMoreByte(cfg: SsiConfig, d: string, f: nat, p: nat, out: string)
    requires f <= p < |d| && out + d[f..p] + "" == Full(cfg, d, p)
    ensures out + d[f..p + 1] + InsertAt(cfg, d, p + 1) == Full(cfg, d, p + 1)
  {
    hide *;
    FullStep(cfg, d, p + 1);
    var ins := InsertAt(cfg, d, p + 1);
    assert out + d[f..p + 1] + ins == (out + d[f..p] + "") + [d[p]] + ins;
  }

  /** Sending `k` of the scanned file bytes. */
  lemma TrackSend(cfg: SsiConfig, d: string, f: nat, p: nat, memory: Scan, calls: nat,
                  pending: string, out: string, k: nat)
    requires Track(cfg, d, f, p, memory, calls, pending, out) && k <= p - f
    ensures Track(cfg, d, f + k, p, memory, calls, pending, out + d[f..f + k])
  {
    hide ScanAt, TagCount, Full, InsertAt;
    assert d[f..p] == d[f..f + k] + d[f + k..p];
    assert (out + d[f..f + k]) + d[f + k..p] + pending == out + d[f..p] + pending;
  }

  /** Sending `k` bytes of the insert, once the file is sent up to the tag's end. */
  lemma TrackInsert(cfg: SsiConfig, d: string, p: nat, memory: Scan, calls: nat,
                    pending: string, out: string, k: nat)
    requires p < |d| && Track(cfg, d, p, p, memory, calls, pending, out) && k <= |pending|
    ensures Track(cfg, d, p, p, memory, calls, pending[k..], out + pending[..k])
  {
    hide ScanAt, TagCount, Full, InsertAt;
    assert d[p..p] == "";
    assert pending == pending[..k] + pending[k..];
    assert (out + pending[..k]) + d[p..p] + pending[k..] == out + d[p..p] + pending;
  }

  /** Whatever has been accepted is a prefix of the served stream, and it is the
      whole stream exactly when no file byte is left. */
  lemma TrackBound(cfg: SsiConfig, d: string, f: nat, p: nat, memory: Scan, calls: nat,
                   pending: string, out: string)
    requires Track(cfg, d, f, p, memory, calls, pending, out)
    ensures out <= Expand(cfg, d)
    ensures f == |d| <==> out == Expand(cfg, d)
  {
    hide ScanAt, TagCount, Full, InsertAt, Expand;
    var full, expand := Full(cfg, d, p), Expand(cfg, d);
    if p < |d| {
      FullBelowExpand(cfg, d, p);
      assert out <= full && |full| < |expand|;
      assert out == expand[..|out|];
    } else {
      ExpandIsFullIff(cfg, d);
      SameTail(out + d[f..p], expand, pending);
      assert out <= expand;
    }
  }

  /** A tag ends after position `p`, and not at the last byte. */
  ghost predicate TagAhead(d: string, p: nat) {
    exists q :: p < q < |d| && TagAt(d, q).Some?
  }

  lemma TagAheadStep(d: string, p: nat)
    requires p < |d|
    ensures TagAhead(d, p) <==> (p + 1 < |d| && TagAt(d, p + 1).Some?) || TagAhead(d, p + 1)
    ensures p + 1 == |d| ==> !TagAhead(d, p + 1)
  {
    hide TagAt;
  }

  lemma SameTail(a: string, b: string, c: string)
    requires a + c == b + c
    ensures a == b
  {
    assert |a| == |b|;
    assert a == (a + c)[..|a|];
    assert b == (b + c)[..|a|];
  }
}
