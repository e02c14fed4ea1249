/** The served stream of a tagged file, related to the tag grammar alone. */
module Expansion {
  import opened Base
  import opened TagScanner

  lemma {:induction false} FullMonotone(cfg: SsiConfig, d: string, p: nat, q: nat)
    requires p <= q <= |d|
    ensures Full(cfg, d, p) <= Full(cfg, d, q)
  {
    hide InsertAt;
    if p < q {
      FullMonotone(cfg, d, p, q - 1);
    }
  }

  /** Everything owed for a proper prefix of the file is a prefix of the stream. */
  lemma FullBelowExpand(cfg: SsiConfig, d: string, p: nat)
    requires p < |d|
    ensures Full(cfg, d, p) + [d[p]] <= Expand(cfg, d)
    ensures Full(cfg, d, p) <= Expand(cfg, d)
  {
    hide InsertAt;
    if p < |d| - 1 {
      FullMonotone(cfg, d, p + 1, |d| - 1);
      assert Full(cfg, d, p + 1) == Full(cfg, d, p) + [d[p]] + InsertAt(cfg, d, p + 1);
    }
  }

  /** The stream and what the documentation promises (an insert after every tag)
      agree exactly when the file does not end in a tag with a non-empty insert. */
  lemma ExpandIsFullIff(cfg: SsiConfig, d: string)
    ensures Expand(cfg, d) == Full(cfg, d, |d|) <==> InsertAt(cfg, d, |d|) == ""
    ensures Expand(cfg, d) + InsertAt(cfg, d, |d|) == Full(cfg, d, |d|)
  {
    if d != "" {
      var e := Expand(cfg, d);
      assert Full(cfg, d, |d|) == e + InsertAt(cfg, d, |d|);
      assert |Full(cfg, d, |d|)| == |e| + |InsertAt(cfg, d, |d|)|;
    }
  }

  lemma ShortestTag()
    ensures IsTag("<!--#x-->", "x")
  {
    assert "<!--#x-->" == TagText("", "x", "") && Spaces("") && NameText("x");
  }

  /** A file whose last byte ends a tag loses that tag's insert. */
  lemma LastTagLosesItsInsert(cfg: SsiConfig)
    requires cfg.handler.None?
    ensures Expand(cfg, "<!--#x-->") == "<!--#x-->" != Full(cfg, "<!--#x-->", 9)
  {
    var d := "<!--#x-->";
    ShortestTag();
    assert d[0..] == d && ScanAt(d, 0) == Idle;
    assert d[..|d|] == d;
    TagFrom(d, 0, d, "x", 9);
    forall i: nat | 0 < i < 9 ensures TagAt(d, i).None? {
      assert d[0..0 + i] == d[..i];
      TagFrom(d, 0, d, "x", i);
    }
    FullOfPlainText(cfg, d, 0, 8);
    ExpandIsFullIff(cfg, d);
    assert |InsertAt(cfg, d, 9)| > 0;
  }

  /** A tag's text has no other tag's text at its end. */
  lemma NoTagInside(t: string, name: string, k: nat, name': string)
    requires IsTag(t, name) && 0 < k < |t|
    ensures !IsTag(t[k..], name')
  {
    if IsTag(t[k..], name') {
      var w1, w2 :| Spaces(w1) && Spaces(w2) && t == TagText(w1, name, w2);
      var v1, v2 :| Spaces(v1) && Spaces(v2) && t[k..] == TagText(v1, name', v2);
      hide TagText, Spaces, NameText;
      TagLength(w1, name, w2);
      TagLength(v1, name', v2);
      assert t[k..][0] == t[k] && t[k..][2] == t[k + 2];
      TagChar(v1, name', v2, 0);
      TagChar(v1, name', v2, 2);
      TagChar(w1, name, w2, k);
      TagChar(w1, name, w2, k + 2);
    }
  }

  lemma TagLength(w1: string, name: string, w2: string)
    ensures |TagText(w1, name, w2)| == |LEAD_IN| + |w1| + |name| + |w2| + |LEAD_OUT|
  {
  }

  /** A text that is a tag by the grammar is taken for one exactly if the scanner is idle
      where it starts: it never looks back. */
  lemma RecognisedWhereIdle(d: string, b: nat, q: nat, name: string)
    requires b < q <= |d| && IsTag(d[b..q], name)
    ensures TagAt(d, q) == Some(name) <==> ScanAt(d, b) == Idle
  {
    hide ScanAt, TagAt, IsTag;
    var t := d[b..q];
    assert t[..|t|] == t;
    if ScanAt(d, b) == Idle {
      TagFrom(d, b, t, name, |t|);
    }
    if TagAt(d, q) == Some(name) {
      var b' := RecognisedTag(d, q, name);
      if b < b' {
        assert d[b..q][b' - b..] == d[b'..q];
        NoTagInside(t, name, b' - b, name);
      } else if b' < b {
        assert d[b'..q][b - b'..] == t;
        NoTagInside(d[b'..q], name, b - b', name);
      }
    }
  }

  /** The scanner does not look back: a `<` right before a tag hides the tag. */
  lemma StrayBracketHidesTag(p: nat)
    requires p <= 10
    ensures TagAt("<<!--#x-->", p) == None
  {
    var d := "<<!--#x-->";
    assert ScanAt(d, 1) == Step(ScanAt(d, 0), d[0]).0;
    assert forall b :: 0 <= b && b + 2 <= |d| && d[b] == '<' && d[b + 1] == '!' ==> b == 1;
    forall b: nat, name | b < p && ScanAt(d, b) == Idle ensures !IsTag(d[b..p], name) {
      if IsTag(d[b..p], name) { TagBegins(d, b, p, name); }
    }
    if TagAt(d, p).Some? {
      var b := RecognisedTag(d, p, TagAt(d, p).value);
    }
  }

  lemma TagBegins(d: string, b: nat, p: nat, name: string)
    requires b <= p <= |d| && IsTag(d[b..p], name)
    ensures b + 2 <= |d| && d[b] == '<' && d[b + 1] == '!'
  {
    var t := d[b..p];
    var w1, w2 :| Spaces(w1) && Spaces(w2) && t == TagText(w1, name, w2);
    assert d[b] == t[0] && d[b + 1] == t[1];
  }

  /** Where no tag ends, the stream is the file. */
  lemma {:induction false} FullOfPlainText(cfg: SsiConfig, d: string, b: nat, q: nat)
    requires b <= q <= |d|
    requires forall i :: b < i <= q ==> TagAt(d, i).None?
    ensures Full(cfg, d, q) == Full(cfg, d, b) + d[b..q]
    ensures TagCount(d, q) == TagCount(d, b)
  {
    hide TagAt, SsiConfig.InsertFor;
    if b < q {
      FullOfPlainText(cfg, d, b, q - 1);
      assert d[b..q] == d[b..q - 1] + [d[q - 1]];
    }
  }

  // --------------------------------------------------- what the comment promises

  /** The last position up to `p` where the scanner is idle. */
  ghost function LastIdle(d: string, p: nat): (b: nat)
    requires p <= |d|
    ensures b <= p && ScanAt(d, b) == Idle && forall i :: b < i <= p ==> ScanAt(d, i) != Idle
  {
    if ScanAt(d, p) == Idle then p else LastIdle(d, p - 1)
  }

  /** The stream of `d[..p]` as the comment promises it: each tag's text is replaced by
      its insert. */
  ghost function Replaced(cfg: SsiConfig, d: string, p: nat): string
    requires p <= |d|
  {
    if p == 0 then ""
    else if TagAt(d, p).Some? then Replaced(cfg, d, LastIdle(d, p - 1)) + InsertAt(cfg, d, p)
    else Replaced(cfg, d, p - 1) + [d[p - 1]]
  }

  /** What Replaced leaves out is the text of the tag. */
  lemma ReplacedIsTag(d: string, p: nat, name: string)
    requires p <= |d| && TagAt(d, p) == Some(name)
    ensures p > 0 && IsTag(d[LastIdle(d, p - 1)..p], name)
    ensures forall i :: LastIdle(d, p - 1) < i < p ==> TagAt(d, i).None?
  {
    hide ScanAt, TagAt, IsTag;
    IdleAtStart(d);
    var b := RecognisedTag(d, p, name);
    assert b == LastIdle(d, p - 1);
  }

  /** The stream has at least the nine bytes of each tag's text too many. */
  lemma {:induction false} TagTextIsExtra(cfg: SsiConfig, d: string, p: nat)
    requires p <= |d|
    ensures |Full(cfg, d, p)| >= |Replaced(cfg, d, p)| + 9 * TagCount(d, p)
    ensures TagCount(d, p) == 0 ==> Full(cfg, d, p) == Replaced(cfg, d, p)
  {
    hide TagAt, ScanAt, SsiConfig.InsertFor, IsTag;
    if p > 0 {
      match TagAt(d, p)
      case None => TagTextIsExtra(cfg, d, p - 1);
      case Some(name) =>
        ReplacedIsTag(d, p, name);
        var b := LastIdle(d, p - 1);
        TagTextIsExtra(cfg, d, b);
        FullOfPlainText(cfg, d, b, p - 1);
        NineAtLeast(d[b..p], name);
    }
  }

  lemma NineAtLeast(t: string, name: string)
    requires IsTag(t, name)
    ensures |t| >= 9
  {
  }

  /** The code keeps the comment's promise exactly on files in which it recognises no
      tag.  So does the stream that is sent, unless the file's last byte ends a tag: the
      insert it then lacks can make up for the texts of the tags only if it is as long. */
  lemma ReplacesIff(cfg: SsiConfig, d: string)
    ensures Full(cfg, d, |d|) == Replaced(cfg, d, |d|) <==> TagCount(d, |d|) == 0
    ensures InsertAt(cfg, d, |d|) == "" ==> (Expand(cfg, d) == Replaced(cfg, d, |d|) <==> TagCount(d, |d|) == 0)
    ensures Expand(cfg, d) == Replaced(cfg, d, |d|) ==> 9 * TagCount(d, |d|) <= |InsertAt(cfg, d, |d|)|
  {
    hide Full, Replaced, TagCount, Expand, InsertAt;
    TagTextIsExtra(cfg, d, |d|);
    ExpandIsFullIff(cfg, d);
  }

  /** A name has at most eight characters: with nine there is no tag. */
  lemma NineIsTooLong(p: nat)
    requires p <= 17
    ensures TagAt("<!--#123456789-->", p) == None
  {
    hide *;
    var d := "<!--#123456789-->";
    if TagAt(d, p).Some? {
      var name := TagAt(d, p).value;
      var b := RecognisedTag(d, p, name);
      TagBegins(d, b, p, name);
      TooLong(d, p, name);
    }
  }

  lemma TooLong(d: string, p: nat, name: string)
    requires d == "<!--#123456789-->" && p <= |d|
    ensures !IsTag(d[0..p], name)
  {
    var t := d[0..p];
    if w1, w2 :| Spaces(w1) && Spaces(w2) && NameText(name) && name != "" && t == TagText(w1, name, w2) {
      TagLength(w1, name, w2);
      hide TagText;
      TagChar(w1, name, w2, 5);
      TagChar(w1, name, w2, 5 + |name|);
    }
  }

  /** Eight characters are not too many, and any white space may stand around them. */
  lemma EightAreEnough()
    ensures IsTag("<!--# \t\r\n12345678\n\r\t -->", "12345678")
  {
    var w1, name, w2 := " \t\r\n", "12345678", "\n\r\t ";
    assert "<!--# \t\r\n12345678\n\r\t -->" == TagText(w1, name, w2) && Spaces(w1) && Spaces(w2);
  }

  /** A page on which the promise is broken, whatever the insert: the tag is sent too. */
  lemma TagTextIsSent(cfg: SsiConfig)
    ensures var d, ins := "<!--#x-->.", cfg.InsertFor(0, "x");
            Expand(cfg, d) == "<!--#x-->" + ins + "." && Replaced(cfg, d, |d|) == ins + "."
  {
    hide SsiConfig.InsertFor, IsTag, TagAt, ScanAt;
    var d, t := "<!--#x-->.", "<!--#x-->";
    ShortestTag();
    IdleAtStart(d);
    forall i: nat | 0 < i <= 9 ensures if i == 9 then TagAt(d, i) == Some("x") && ScanAt(d, i) == Idle
                                       else TagAt(d, i).None? && ScanAt(d, i) != Idle {
      assert d[0..0 + i] == t[..i];
      TagFrom(d, 0, t, "x", i);
    }
    NoTagFromIdle(d, 10);
    FullOfPlainText(cfg, d, 0, 8);
    FullStep(cfg, d, 9);
    assert LastIdle(d, 8) == 0 && d[0..8] + [d[8]] == t;
    assert Replaced(cfg, d, 9) == InsertAt(cfg, d, 9) == cfg.InsertFor(0, "x");
    assert Replaced(cfg, d, 10) == Replaced(cfg, d, 9) + ['.'];
  }

  // ------------------------------------------------------- grammar reference

  /** A tag of the grammar starts at `b` and ends at `q`. */
  ghost predicate TagSpans(d: string, b: nat, q: nat, name: string) {
    b < q <= |d| && IsTag(d[b..q], name)
  }

  /** `d[b..b + m]` is the longest text at `b` that some tag starts with. */
  ghost predicate LongestViable(d: string, b: nat, m: nat) {
    b + m <= |d| &&
    (m > 0 ==> Viable(d[b..b + m])) &&
    (b + m < |d| ==> !Viable(d[b..b + m + 1]))
  }

  /** The stream of `d[b..]`, `k` tags having been met, told by the grammar only:
      a tag is copied and followed by its insert; otherwise the longest text that
      some tag starts with is passed over together with the character that breaks
      it, and that character is not looked at again. */
  ghost function Reference(cfg: SsiConfig, d: string, b: nat, k: nat): string
    requires b <= |d|
    decreases |d| - b
  {
    if b == |d| then ""
    else if exists q: nat, name :: TagSpans(d, b, q, name) then
      var q: nat, name :| TagSpans(d, b, q, name);
      d[b..q] + cfg.InsertFor(k, name) + Reference(cfg, d, q, k + 1)
    else if exists m: nat :: LongestViable(d, b, m) && b + m < |d| then
      var m: nat :| LongestViable(d, b, m) && b + m < |d|;
      d[b..b + m + 1] + Reference(cfg, d, b + m + 1, k)
    else d[b..]
  }

  /** From an idle position, the first place where the scanner is idle again. */
  lemma {:induction false} NextIdle(d: string, b: nat, from: nat) returns (q: nat)
    requires b < from <= |d| && ScanAt(d, b) == Idle
    requires forall i :: b < i < from ==> ScanAt(d, i) != Idle && TagAt(d, i).None?
    ensures from <= q <= |d| + 1
    ensures forall i :: b < i < q ==> ScanAt(d, i) != Idle && TagAt(d, i).None?
    ensures q <= |d| ==> ScanAt(d, q) == Idle
    decreases |d| - from
  {
    hide ScanAt, TagAt;
    if ScanAt(d, from) == Idle {
      q := from;
    } else {
      BusyHasNoTag(d, from);
      if from == |d| { q := |d| + 1; } else { q := NextIdle(d, b, from + 1); }
    }
  }

  lemma BusyHasNoTag(d: string, p: nat)
    requires p <= |d| && ScanAt(d, p) != Idle
    ensures TagAt(d, p).None?
  {
    if p > 0 { assert Step(ScanAt(d, p - 1), d[p - 1]).1.None?; }
  }

  /** A grammar tag at an idle position ends where the scanner is first idle again. */
  lemma SpanEndsAtNextIdle(d: string, b: nat, q: nat, name: string, i: nat)
    requires b < i <= |d| && ScanAt(d, b) == Idle
    requires TagSpans(d, b, q, name)
    ensures i < q ==> ScanAt(d, i) != Idle
    ensures i == q ==> TagAt(d, q) == Some(name) && ScanAt(d, q) == Idle
  {
    var t := d[b..q];
    if i <= q {
      assert d[b..b + (i - b)] == t[..i - b];
      TagFrom(d, b, t, name, i - b);
    }
  }

  /** Viability at an idle position, position by position. */
  lemma ViableWhileBusy(d: string, b: nat, q: nat, i: nat)
    requires b < i <= q && i <= |d| && ScanAt(d, b) == Idle
    requires forall j :: b < j < q && j <= |d| ==> ScanAt(d, j) != Idle && TagAt(d, j).None?
    ensures (ScanAt(d, i) != Idle || TagAt(d, i).Some?) <==> Viable(d[b..i])
  {
    BusyIffViable(d, b, i);
  }

  /** Text that can start a tag has prefixes that can. */
  lemma ViablePrefix(d: string, b: nat, i: nat, j: nat)
    requires b <= i <= j <= |d| && Viable(d[b..j])
    ensures Viable(d[b..i])
  {
    var t, name :| IsTag(t, name) && d[b..j] <= t;
    assert d[b..i] == d[b..j][..i - b] <= t;
  }

  /** What the file up to the next idle position contributes. */
  lemma FullToNextIdle(cfg: SsiConfig, d: string, b: nat, q: nat)
    requires b < q <= |d|
    requires forall i :: b < i < q ==> TagAt(d, i).None?
    ensures match TagAt(d, q)
            case None => Full(cfg, d, q) == Full(cfg, d, b) + d[b..q] && TagCount(d, q) == TagCount(d, b)
            case Some(name) =>
              Full(cfg, d, q) == Full(cfg, d, b) + (d[b..q] + cfg.InsertFor(TagCount(d, b), name)) &&
              TagCount(d, q) == TagCount(d, b) + 1
  {
    hide TagAt, SsiConfig.InsertFor, ScanAt, Full;
    FullOfPlainText(cfg, d, b, q - 1);
    var f, t, ins := Full(cfg, d, b), d[b..q - 1], InsertAt(cfg, d, q);
    FullStep(cfg, d, q);
    assert d[b..q] == t + [d[q - 1]];
    assert f + t + [d[q - 1]] + ins == f + (d[b..q] + ins) == f + d[b..q] + ins;
  }

  lemma FullStep(cfg: SsiConfig, d: string, q: nat)
    requires 0 < q <= |d|
    ensures Full(cfg, d, q) == Full(cfg, d, q - 1) + [d[q - 1]] + InsertAt(cfg, d, q)
  {
    hide InsertAt;
  }

  /** The streaming scanner computes what the grammar says: the served stream is
      what went before plus the reference reading of the rest. */
  lemma {:induction false} FullIsReference(cfg: SsiConfig, d: string, b: nat)
    requires b <= |d| && ScanAt(d, b) == Idle
    ensures Full(cfg, d, |d|) == Full(cfg, d, b) + Reference(cfg, d, b, TagCount(d, b))
    decreases |d| - b
  {
    hide SsiConfig.InsertFor, ScanAt, TagAt, Full, TagCount, Viable, TagSpans;
    if b == |d| {
      assert Reference(cfg, d, b, TagCount(d, b)) == "";
    } else {
      hide Reference;
      var k := TagCount(d, b);
      var q := NextIdle(d, b, b + 1);
      if q > |d| {
        FullOfPlainText(cfg, d, b, |d|);
        RestIsPlain(cfg, d, b, k);
      } else {
        FullToNextIdle(cfg, d, b, q);
        FullIsReference(cfg, d, q);
        if TagAt(d, q).Some? {
          TagThenRest(cfg, d, b, q, TagAt(d, q).value, k);
        } else {
          MismatchThenRest(cfg, d, b, q, k);
        }
      }
    }
  }

  lemma RestIsPlain(cfg: SsiConfig, d: string, b: nat, k: nat)
    requires b < |d| && ScanAt(d, b) == Idle
    requires forall i :: b < i <= |d| ==> ScanAt(d, i) != Idle
    ensures Reference(cfg, d, b, k) == d[b..]
  {
    hide ScanAt, TagAt, IsTag, Viable;
    if q: nat, name :| TagSpans(d, b, q, name) {
      SpanEndsAtNextIdle(d, b, q, name, q);
    }
    if m: nat :| LongestViable(d, b, m) && b + m < |d| {
      forall j | b < j < |d| ensures TagAt(d, j).None? { BusyHasNoTag(d, j); }
      ViableWhileBusy(d, b, |d|, b + m + 1);
    }
  }

  lemma TagThenRest(cfg: SsiConfig, d: string, b: nat, q: nat, name: string, k: nat)
    requires b < q <= |d| && ScanAt(d, b) == Idle && TagAt(d, q) == Some(name)
    requires forall i :: b < i < q ==> ScanAt(d, i) != Idle && TagAt(d, i).None?
    requires ScanAt(d, q) == Idle
    ensures Reference(cfg, d, b, k) == d[b..q] + cfg.InsertFor(k, name) + Reference(cfg, d, q, k + 1)
  {
    hide SsiConfig.InsertFor, ScanAt, TagAt, IsTag, Viable;
    var b' := RecognisedTag(d, q, name);
    assert b' == b;
    assert TagSpans(d, b, q, name);
    forall q': nat, name' | TagSpans(d, b, q', name') ensures q' == q && name' == name {
      SpanEndsAtNextIdle(d, b, q', name', if q' < q then q' else q);
    }
  }

  lemma MismatchThenRest(cfg: SsiConfig, d: string, b: nat, q: nat, k: nat)
    requires b < q <= |d| && ScanAt(d, b) == Idle && TagAt(d, q).None?
    requires forall i :: b < i < q ==> ScanAt(d, i) != Idle && TagAt(d, i).None?
    requires ScanAt(d, q) == Idle
    ensures Reference(cfg, d, b, k) == d[b..q] + Reference(cfg, d, q, k)
  {
    hide SsiConfig.InsertFor, ScanAt, TagAt, IsTag, Viable;
    forall q': nat, name | TagSpans(d, b, q', name) ensures false {
      SpanEndsAtNextIdle(d, b, q', name, if q' < q then q' else q);
    }
    ViableWhileBusy(d, b, q, q);
    if q - 1 > b { ViableWhileBusy(d, b, q, q - 1); }
    var m0: nat := q - 1 - b;
    assert b + m0 + 1 == q && LongestViable(d, b, m0);
    forall m: nat | LongestViable(d, b, m) && b + m < |d| ensures m == m0 {
      if m < m0 { ViablePrefix(d, b, b + m + 1, b + m0); }
      if m > m0 { ViablePrefix(d, b, q, b + m); }
    }
  }

  /** For a whole file: scanner and grammar give the same stream. */
  lemma StreamMeetsGrammar(cfg: SsiConfig, d: string)
    ensures Expand(cfg, d) + InsertAt(cfg, d, |d|) == Reference(cfg, d, 0, 0)
  {
    FullIsReference(cfg, d, 0);
    ExpandIsFullIff(cfg, d);
  }
}
