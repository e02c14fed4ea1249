/** Pages put together from text and tags, and what is sent for them. */
module Pages {
  import opened Base
  import opened TagScanner
  import opened Expansion

  /** A piece of a page: text without `<`, or the text of a tag, with the place at which
      the tag is registered, if it is. */
  datatype Piece = Text(text: string) | Tag(text: string, name: string, index: Option<nat>)

  function PageOf(ps: seq<Piece>): string {
    if ps == [] then "" else ps[0].text + PageOf(ps[1..])
  }

  /** The page with the answer behind each tag: the handler's, called with the number of the
      call and the tag's place, or the marker of an unknown tag. */
  function AnswerOf(handler: (nat, nat) -> Insert, ps: seq<Piece>, call: nat): string {
    if ps == [] then ""
    else match ps[0]
      case Text(text) => text + AnswerOf(handler, ps[1..], call)
      case Tag(text, _, Some(i)) => text + (handler(call, i) + AnswerOf(handler, ps[1..], call + 1))
      case Tag(text, name, None) =>
        text + ("<b>***UNKNOWN TAG " + CString(name) + "***</b>" + AnswerOf(handler, ps[1..], call + 1))
  }

  ghost predicate WellMade(cfg: SsiConfig, p: Piece) {
    match p
    case Text(text) => LEAD_IN[0] !in text
    case Tag(text, name, Some(i)) => IsTag(text, name) && cfg.Registers(name, i)
    case Tag(text, name, None) => IsTag(text, name) && cfg.Ignores(name)
  }

  /** Text without `<` leaves the scanner idle. */
  lemma {:induction false} TextStaysIdle(d: string, b: nat, q: nat)
    requires b <= q <= |d| && ScanAt(d, b) == Idle && LEAD_IN[0] !in d[b..q]
    ensures ScanAt(d, q) == Idle && forall i :: b < i <= q ==> TagAt(d, i).None?
  {
    if b < q {
      SliceSnoc(d, b, q);
      TextStaysIdle(d, b, q - 1);
      assert d[q - 1] in d[b..q];
    }
  }

  /** A tag at an idle position ends where its text does, and nowhere before. */
  lemma TagEnds(d: string, b: nat, q: nat, name: string)
    requires b < q <= |d| && ScanAt(d, b) == Idle && IsTag(d[b..q], name)
    ensures TagAt(d, q) == Some(name) && ScanAt(d, q) == Idle && forall i :: b < i < q ==> TagAt(d, i).None?
  {
    hide ScanAt, TagAt, IsTag;
    var t := d[b..q];
    assert t[..|t|] == t;
    TagFrom(d, b, t, name, |t|);
    forall i | b < i < q ensures TagAt(d, i).None? {
      assert d[b..i] == t[..i - b];
      TagFrom(d, b, t, name, i - b);
    }
  }

  /** One piece, read from an idle position after `call` tags. */
  lemma OnePiece(cfg: SsiConfig, d: string, b: nat, p: Piece)
    requires cfg.handler.Some? && WellMade(cfg, p)
    requires b + |p.text| <= |d| && d[b..b + |p.text|] == p.text && ScanAt(d, b) == Idle
    ensures var q, call, added := b + |p.text|, TagCount(d, b), if p.Tag? then 1 else 0;
            ScanAt(d, q) == Idle && TagCount(d, q) == call + added &&
            Full(cfg, d, q) == Full(cfg, d, b) + AnswerOf(cfg.handler.value, [p], call)
  {
    hide ScanAt, TagAt, IsTag, Full, TagCount;
    var q, call := b + |p.text|, TagCount(d, b);
    assert [p][1..] == [];
    match p
    case Text(text) =>
      TextStaysIdle(d, b, q);
      FullOfPlainText(cfg, d, b, q);
    case Tag(text, name, index) =>
      NineAtLeast(text, name);
      TagEnds(d, b, q, name);
      FullToNextIdle(cfg, d, b, q);
      cfg.InsertIs(call, name);
      assert AnswerOf(cfg.handler.value, [p], call) == text + cfg.InsertFor(call, name);
  }

  lemma AnswerCons(handler: (nat, nat) -> Insert, ps: seq<Piece>, call: nat)
    requires ps != []
    ensures AnswerOf(handler, ps, call)
         == AnswerOf(handler, [ps[0]], call) + AnswerOf(handler, ps[1..], call + if ps[0].Tag? then 1 else 0)
  {
    assert [ps[0]][1..] == [];
  }

  lemma {:induction false} Pieces(cfg: SsiConfig, d: string, b: nat, ps: seq<Piece>)
    requires cfg.handler.Some? && forall p :: p in ps ==> WellMade(cfg, p)
    requires b + |PageOf(ps)| <= |d| && d[b..b + |PageOf(ps)|] == PageOf(ps) && ScanAt(d, b) == Idle
    ensures var q := b + |PageOf(ps)|;
            ScanAt(d, q) == Idle &&
            Full(cfg, d, q) == Full(cfg, d, b) + AnswerOf(cfg.handler.value, ps, TagCount(d, b))
    decreases |ps|
  {
    hide ScanAt, Full, TagCount, WellMade, AnswerOf;
    if ps == [] {
      AnswerOfNothing(cfg.handler.value, TagCount(d, b));
    } else {
      var text, rest := ps[0].text, PageOf(ps[1..]);
      var mid := b + |text|;
      assert d[b..mid] == d[b..b + |PageOf(ps)|][..|text|] == text;
      assert d[mid..mid + |rest|] == d[b..b + |PageOf(ps)|][|text|..] == rest;
      OnePiece(cfg, d, b, ps[0]);
      Pieces(cfg, d, mid, ps[1..]);
      AnswerCons(cfg.handler.value, ps, TagCount(d, b));
    }
  }

  lemma AnswerOfNothing(handler: (nat, nat) -> Insert, call: nat)
    ensures AnswerOf(handler, [], call) == ""
  {
  }

  /** A page of text and tags, with at least one more byte, is sent with the handler's answer
      for the right tag behind each of them, the calls being numbered from 0 on. */
  lemma PageIsAnswered(cfg: SsiConfig, ps: seq<Piece>, last: char)
    requires cfg.handler.Some? && forall p :: p in ps ==> WellMade(cfg, p)
    ensures Expand(cfg, PageOf(ps) + [last]) == AnswerOf(cfg.handler.value, ps, 0) + [last]
  {
    hide WellMade, AnswerOf, PageOf;
    var d := PageOf(ps) + [last];
    IdleAtStart(d);
    Pieces(cfg, d, 0, ps);
    assert d[..|d| - 1] == PageOf(ps);
  }
}
