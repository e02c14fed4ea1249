/** Server-side-include tags: the scanner's automaton (httpd.c), the tag grammar
    it recognises, and the byte stream that a scanned file stands for. */
module TagScanner {
  import opened Base

  const LEAD_IN: string := "<!--#"
  const LEAD_OUT: string := "-->"
  const MAX_TAG_NAME_LEN := 8
  const MAX_TAG_INSERT_LEN := 192

  // ---------------------------------------------------------------- inserts

  type Insert = s: string | |s| <= MAX_TAG_INSERT_LEN

  /** The registered tags and their handler.  The handler is called with the tag's
      index; its first argument numbers the calls made for one file, so an answer
      that changes from call to call is covered. */
  datatype SsiConfig = SsiConfig(tags: seq<string>, handler: Option<(nat, nat) -> Insert>) {

    /** The least index of a registered tag equal to `name` as a C string. */
    function Lookup(name: string, from: nat): (r: Option<nat>)
      requires from <= |tags|
      ensures r.None? ==> forall i :: from <= i < |tags| ==> CString(tags[i]) != CString(name)
      ensures r.Some? ==> from <= r.value < |tags| && CString(tags[r.value]) == CString(name)
      ensures r.Some? ==> forall i :: from <= i < r.value ==> CString(tags[i]) != CString(name)
      decreases |tags| - from
    {
      if from == |tags| then None
      else if CString(tags[from]) == CString(name) then Some(from)
      else Lookup(name, from + 1)
    }

    /** Tag `i` is the first registered one that is named `name`. */
    predicate Registers(name: string, i: nat) {
      i < |tags| && CString(tags[i]) == CString(name) && forall j :: 0 <= j < i ==> CString(tags[j]) != CString(name)
    }

    /** There is nobody to ask for a tag of this name. */
    predicate Ignores(name: string) {
      handler.None? || forall j :: 0 <= j < |tags| ==> CString(tags[j]) != CString(name)
    }

    function InsertFor(call: nat, name: string): string {
      if handler.Some? && Lookup(name, 0).Some?
      then handler.value(call, Lookup(name, 0).value)
      else UnknownTag(name)
    }

    /** The handler is asked for the tag that is registered under the name. */
    lemma InsertIs(call: nat, name: string)
      ensures forall i: nat :: handler.Some? && Registers(name, i) ==> InsertFor(call, name) == handler.value(call, i)
      ensures Ignores(name) ==> InsertFor(call, name) == "<b>***UNKNOWN TAG " + CString(name) + "***</b>"
    {
      hide CString;
    }
  }

  function UnknownTag(name: string): string {
    "<b>***UNKNOWN TAG " + CString(name) + "***</b>"
  }

  // ---------------------------------------------------------------- automaton

  predicate IsSpace(c: char) {
    c == ' ' || c == '\t' || c == '\n' || c == '\r'
  }

  predicate IsNameChar(c: char) {
    c != LEAD_OUT[0] && !IsSpace(c)
  }

  /** What the scanner remembers of the text since the last `<` it took up. */
  datatype Scan =
    | Idle
    | LeadIn(matched: nat)
    | Name(name: string)
    | LeadOut(name: string, matched: nat)

  /** Reads one character; the second component is the name of the tag it ends. */
  function Step(s: Scan, c: char): (Scan, Option<string>) {
    match s
    case Idle =>
      (if c == LEAD_IN[0] then LeadIn(1) else Idle, None)
    case LeadIn(k) =>
      if k < |LEAD_IN| && c == LEAD_IN[k]
      then (if k + 1 == |LEAD_IN| then Name("") else LeadIn(k + 1), None)
      else (Idle, None)
    case Name(n) =>
      if n == "" && IsSpace(c) then (s, None)
      else if !IsNameChar(c) then
        (if n == "" then Idle else LeadOut(n, if c == LEAD_OUT[0] then 1 else 0), None)
      else (if |n| < MAX_TAG_NAME_LEN then Name(n + [c]) else Idle, None)
    case LeadOut(n, k) =>
      if k == 0 && IsSpace(c) then (s, None)
      else if k < |LEAD_OUT| && c == LEAD_OUT[k] then
        if k + 1 == |LEAD_OUT| then (Idle, Some(n)) else (LeadOut(n, k + 1), None)
      else (Idle, None)
  }

  /** The scanner's memory after reading `d[..p]`. */
  function ScanAt(d: string, p: nat): Scan
    requires p <= |d|
  {
    if p == 0 then Idle else Step(ScanAt(d, p - 1), d[p - 1]).0
  }

  /** The name of the tag whose closing `>` is `d[p - 1]`. */
  function TagAt(d: string, p: nat): Option<string>
    requires p <= |d|
  {
    if p == 0 then None else Step(ScanAt(d, p - 1), d[p - 1]).1
  }

  lemma ScanStep(d: string, p: nat)
    requires 0 < p <= |d|
    ensures Step(ScanAt(d, p - 1), d[p - 1]) == (ScanAt(d, p), TagAt(d, p))
  {
    hide Step;
  }

  /** How many tags end in `d[..p]`. */
  function TagCount(d: string, p: nat): nat
    requires p <= |d|
  {
    if p == 0 then 0 else TagCount(d, p - 1) + if TagAt(d, p).Some? then 1 else 0
  }

  /** The insert that follows `d[p - 1]`: empty when no tag ends there. */
  function InsertAt(cfg: SsiConfig, d: string, p: nat): string
    requires p <= |d|
  {
    match TagAt(d, p)
    case None => ""
    case Some(name) => if p == 0 then "" else cfg.InsertFor(TagCount(d, p - 1), name)
  }

  /** `d[..p]` with each tag's insert placed right after its `>`. */
  function Full(cfg: SsiConfig, d: string, p: nat): string
    requires p <= |d|
  {
    if p == 0 then "" else Full(cfg, d, p - 1) + [d[p - 1]] + InsertAt(cfg, d, p)
  }

  /** The stream the server sends for file `d`: as `Full`, but nothing follows the
      file's last byte, even when that byte ends a tag. */
  function Expand(cfg: SsiConfig, d: string): string {
    if d == "" then "" else Full(cfg, d, |d| - 1) + [d[|d| - 1]]
  }

  // ---------------------------------------------------------------- grammar

  ghost predicate Spaces(w: string) {
    forall i :: 0 <= i < |w| ==> IsSpace(w[i])
  }

  ghost predicate NameText(n: string) {
    |n| <= MAX_TAG_NAME_LEN && forall i :: 0 <= i < |n| ==> IsNameChar(n[i])
  }

  ghost function TagText(w1: string, name: string, w2: string): string {
    LEAD_IN + w1 + name + w2 + LEAD_OUT
  }

  /** `t` is a tag: `<!--#`, spaces, a name of 1 to 8 name characters, spaces, `-->`. */
  ghost predicate IsTag(t: string, name: string) {
    name != "" && NameText(name) &&
    exists w1, w2 :: Spaces(w1) && Spaces(w2) && t == TagText(w1, name, w2)
  }

  /** Some tag starts with `p`. */
  ghost predicate Viable(p: string) {
    exists t, name :: IsTag(t, name) && p <= t
  }

  // ---------------------------------------------------------------- soundness

  ghost function OpenText(w1: string, name: string, w2: string, k: nat): string
    requires k <= |LEAD_OUT|
  {
    LEAD_IN + w1 + name + w2 + LEAD_OUT[..k]
  }

  /** The text `p` read since the `<` explains the scanner's memory `s`. */
  ghost predicate Explains(s: Scan, p: string) {
    match s
    case Idle => false
    case LeadIn(k) => 1 <= k < |LEAD_IN| && p == LEAD_IN[..k]
    case Name(n) => NameText(n) && exists w1 :: Spaces(w1) && p == OpenText(w1, n, "", 0)
    case LeadOut(n, k) =>
      (n != "" && NameText(n) && k < |LEAD_OUT| &&
       exists w1, w2 :: Spaces(w1) && Spaces(w2) && p == OpenText(w1, n, w2, k))
  }

  lemma NameStep(w1: string, n: string, c: char)
    requires Spaces(w1) && NameText(n)
    ensures var (s', tag) := Step(Name(n), c);
            tag.None? && (s' != Idle ==> Explains(s', OpenText(w1, n, "", 0) + [c]))
  {
    var p := OpenText(w1, n, "", 0) + [c];
    if n == "" && IsSpace(c) {
      assert Spaces(w1 + [c]) && p == OpenText(w1 + [c], "", "", 0);
    } else if c == LEAD_OUT[0] {
      assert p == OpenText(w1, n, "", 1);
    } else if IsSpace(c) {
      assert Spaces([c]) && p == OpenText(w1, n, [c], 0);
    } else {
      assert p == OpenText(w1, n + [c], "", 0);
    }
  }

  lemma LeadOutStep(w1: string, n: string, w2: string, k: nat, c: char)
    requires Spaces(w1) && Spaces(w2) && NameText(n) && n != "" && k < |LEAD_OUT|
    ensures var p := OpenText(w1, n, w2, k) + [c];
            var (s', tag) := Step(LeadOut(n, k), c);
            match tag
            case Some(name) => s' == Idle && name == n && p == TagText(w1, n, w2)
            case None => s' != Idle ==> Explains(s', p)
  {
    var p := OpenText(w1, n, w2, k) + [c];
    if k == 0 && IsSpace(c) {
      assert Spaces(w2 + [c]) && p == OpenText(w1, n, w2 + [c], 0);
    } else if c == LEAD_OUT[k] {
      assert LEAD_OUT[..k + 1] == LEAD_OUT[..k] + [c];
      assert p == OpenText(w1, n, w2, k + 1);
      if k + 1 == |LEAD_OUT| { assert LEAD_OUT[..3] == LEAD_OUT; }
    }
  }

  lemma ExplainsStep(s: Scan, p: string, c: char)
    requires if s.Idle? then p == "" else Explains(s, p)
    ensures var (s', tag) := Step(s, c);
            match tag
            case Some(name) => s' == Idle && IsTag(p + [c], name)
            case None => s' != Idle ==> Explains(s', p + [c])
  {
    match s
    case Idle =>
    case LeadIn(k) =>
      if c == LEAD_IN[k] {
        assert p + [c] == LEAD_IN[..k + 1];
        if k + 1 == |LEAD_IN| { assert Spaces("") && p + [c] == OpenText("", "", "", 0); }
      }
    case Name(n) =>
      var w1 :| Spaces(w1) && p == OpenText(w1, n, "", 0);
      NameStep(w1, n, c);
    case LeadOut(n, k) =>
      var w1, w2 :| Spaces(w1) && Spaces(w2) && p == OpenText(w1, n, w2, k);
      LeadOutStep(w1, n, w2, k, c);
  }

  lemma SliceSnoc(d: string, b: nat, p: nat)
    requires b < p <= |d|
    ensures d[b..p] == d[b..p - 1] + [d[p - 1]]
  {
  }

  /** Whatever the scanner has in hand began at a `<` that it read when idle. */
  lemma {:induction false} OpenSince(d: string, p: nat) returns (b: nat)
    requires p <= |d| && ScanAt(d, p) != Idle
    ensures b < p && ScanAt(d, b) == Idle && Explains(ScanAt(d, p), d[b..p])
    ensures forall i :: b < i <= p ==> ScanAt(d, i) != Idle && TagAt(d, i).None?
  {
    IdleAtStart(d);
    hide *;
    b := p - 1;
    if ScanAt(d, p - 1) != Idle {
      b := OpenSince(d, p - 1);
    }
    OpenStep(d, b, p);
  }

  lemma IdleAtStart(d: string)
    ensures ScanAt(d, 0) == Idle && TagAt(d, 0).None?
  {
  }

  lemma OpenStep(d: string, b: nat, p: nat)
    requires b < p <= |d|
    requires if ScanAt(d, p - 1) == Idle then b == p - 1 else Explains(ScanAt(d, p - 1), d[b..p - 1])
    ensures match TagAt(d, p)
            case Some(name) => ScanAt(d, p) == Idle && IsTag(d[b..p], name)
            case None => ScanAt(d, p) != Idle ==> Explains(ScanAt(d, p), d[b..p])
  {
    hide *;
    SliceSnoc(d, b, p);
    ScanStep(d, p);
    ExplainsStep(ScanAt(d, p - 1), d[b..p - 1], d[p - 1]);
  }

  // ------------------------------------------------------------- completeness

  /** The scanner's memory after `i` characters of TagText(w1, name, w2). */
  ghost function Inside(w1: string, name: string, w2: string, i: nat): Scan {
    var a := |LEAD_IN| + |w1|;
    var b := a + |name|;
    var c := b + |w2|;
    if i == 0 then Idle
    else if i < |LEAD_IN| then LeadIn(i)
    else if i <= a then Name("")
    else if i <= b then Name(name[..i - a])
    else if i <= c then LeadOut(name, 0)
    else if i < c + |LEAD_OUT| then LeadOut(name, i - c)
    else Idle
  }

  lemma {:induction false} TagIsScanned(w1: string, name: string, w2: string, i: nat)
    requires Spaces(w1) && Spaces(w2) && NameText(name) && name != ""
    requires i <= |TagText(w1, name, w2)|
    ensures var t := TagText(w1, name, w2);
            ScanAt(t, i) == Inside(w1, name, w2, i) &&
            TagAt(t, i) == if i == |t| then Some(name) else None
  {
    if i > 0 {
      TagIsScanned(w1, name, w2, i - 1);
      InsideStep(w1, name, w2, i);
      hide *;
      ScanStep(TagText(w1, name, w2), i);
    }
  }

  lemma InsideStep(w1: string, name: string, w2: string, i: nat)
    requires Spaces(w1) && Spaces(w2) && NameText(name) && name != ""
    requires 0 < i <= |TagText(w1, name, w2)|
    ensures var t := TagText(w1, name, w2);
            Step(Inside(w1, name, w2, i - 1), t[i - 1])
            == (Inside(w1, name, w2, i), if i == |t| then Some(name) else None)
  {
    TagChar(w1, name, w2, i - 1);
    var a := |LEAD_IN| + |w1|;
    var b := a + |name|;
    hide Spaces, NameText;
    if a < i <= b {
      assert name[..i - a] == name[..i - 1 - a] + [name[i - 1 - a]];
    } else if b < i {
      assert name[..|name|] == name;
    }
  }

  lemma TagChar(w1: string, name: string, w2: string, i: nat)
    requires Spaces(w1) && Spaces(w2) && NameText(name)
    requires i < |TagText(w1, name, w2)|
    ensures var a := |LEAD_IN| + |w1|;
            var b := a + |name|;
            var c := b + |w2|;
            var x := TagText(w1, name, w2)[i];
            if i < |LEAD_IN| then x == LEAD_IN[i]
            else if i < a then IsSpace(x)
            else if i < b then x == name[i - a] && IsNameChar(x)
            else if i < c then IsSpace(x)
            else x == LEAD_OUT[i - c]
  {
  }

  /** From an idle position, scanning does not depend on what came before. */
  lemma {:induction false} ScanShift(d: string, b: nat, i: nat)
    requires b + i <= |d| && ScanAt(d, b) == Idle
    ensures ScanAt(d, b + i) == ScanAt(d[b..], i)
    ensures i > 0 ==> TagAt(d, b + i) == TagAt(d[b..], i)
  {
    if i > 0 {
      ScanShift(d, b, i - 1);
      hide ScanAt, TagAt, Step;
      assert d[b..][i - 1] == d[b + i - 1];
      ScanStep(d, b + i);
      ScanStep(d[b..], i);
    }
  }

  /** Scanning `d` up to `i` depends on `d[..i]` only. */
  lemma {:induction false} ScanPrefix(d: string, t: string, i: nat)
    requires i <= |d| && i <= |t| && d[..i] == t[..i]
    ensures ScanAt(d, i) == ScanAt(t, i) && TagAt(d, i) == TagAt(t, i)
  {
    if i > 0 {
      hide Step;
      assert d[..i - 1] == d[..i][..i - 1] == t[..i - 1];
      assert d[i - 1] == d[..i][i - 1] == t[i - 1];
      ScanPrefix(d, t, i - 1);
    }
  }

  /** Text that starts a tag and is read from an idle position keeps the scanner
      busy to the tag's end, and the tag is recognised exactly there. */
  lemma TagFrom(d: string, b: nat, t: string, name: string, i: nat)
    requires IsTag(t, name) && 0 < i <= |t| && b + i <= |d|
    requires ScanAt(d, b) == Idle && d[b..b + i] == t[..i]
    ensures i < |t| ==> ScanAt(d, b + i) != Idle && TagAt(d, b + i).None?
    ensures i == |t| ==> TagAt(d, b + i) == Some(name) && ScanAt(d, b + i) == Idle
  {
    var w1, w2 :| Spaces(w1) && Spaces(w2) && t == TagText(w1, name, w2);
    hide ScanAt, TagAt, Step, TagText;
    TagIsScanned(w1, name, w2, i);
    ScanShift(d, b, i);
    assert d[b..][..i] == d[b..b + i];
    ScanPrefix(d[b..], t, i);
  }

  /** A tag the scanner ends at `q` began where the scanner was last idle. */
  lemma RecognisedTag(d: string, q: nat, name: string) returns (b: nat)
    requires q <= |d| && TagAt(d, q) == Some(name)
    ensures b < q && ScanAt(d, b) == Idle && IsTag(d[b..q], name)
    ensures forall i :: b < i < q ==> ScanAt(d, i) != Idle && TagAt(d, i).None?
  {
    IdleAtStart(d);
    if ScanAt(d, q - 1) == Idle { NoTagFromIdle(d, q); }
    hide *;
    b := OpenSince(d, q - 1);
    OpenStep(d, b, q);
  }

  lemma NoTagFromIdle(d: string, q: nat)
    requires 0 < q <= |d| && ScanAt(d, q - 1) == Idle
    ensures TagAt(d, q).None?
  {
  }

  /** The scanner recognises a tag ending at `q` exactly when the text back to
      some `<` read while idle is a tag by the grammar. */
  lemma RecognisedIffTag(d: string, q: nat, name: string)
    requires q <= |d|
    ensures TagAt(d, q) == Some(name) <==>
            exists b: nat :: b < q && ScanAt(d, b) == Idle && IsTag(d[b..q], name)
  {
    hide ScanAt, TagAt, IsTag;
    if TagAt(d, q) == Some(name) {
      var b := RecognisedTag(d, q, name);
    }
    if b: nat :| b < q && ScanAt(d, b) == Idle && IsTag(d[b..q], name) {
      var t := d[b..q];
      assert t[..|t|] == t;
      TagFrom(d, b, t, name, |t|);
    }
  }

  /** Any memory but Idle stands for text that some tag starts with. */
  lemma ExplainedIsViable(s: Scan, p: string)
    requires Explains(s, p)
    ensures Viable(p)
  {
    assert NameText("x") && Spaces("");
    match s
    case Idle =>
    case LeadIn(k) =>
      assert IsTag(TagText("", "x", ""), "x") && p <= TagText("", "x", "");
    case Name(n) =>
      var w1 :| Spaces(w1) && p == OpenText(w1, n, "", 0);
      var name := if n == "" then "x" else n;
      assert IsTag(TagText(w1, name, ""), name) && p <= TagText(w1, name, "");
    case LeadOut(n, k) =>
      var w1, w2 :| Spaces(w1) && Spaces(w2) && p == OpenText(w1, n, w2, k);
      assert IsTag(TagText(w1, n, w2), n) && p <= TagText(w1, n, w2);
  }

  /** Read from an idle position with the scanner busy ever since, text keeps the
      scanner busy, or ends a tag, exactly as long as some tag starts with it. */
  lemma BusyIffViable(d: string, b: nat, p: nat)
    requires b < p <= |d| && ScanAt(d, b) == Idle
    requires forall i :: b < i < p ==> ScanAt(d, i) != Idle
    ensures (ScanAt(d, p) != Idle || TagAt(d, p).Some?) <==> Viable(d[b..p])
  {
    hide ScanAt, TagAt, IsTag, Explains;
    if ScanAt(d, p) != Idle {
      var b' := OpenSince(d, p);
      assert b' == b;
      ExplainedIsViable(ScanAt(d, p), d[b..p]);
    }
    if TagAt(d, p).Some? {
      var b' := RecognisedTag(d, p, TagAt(d, p).value);
      assert b' == b;
    }
    if Viable(d[b..p]) {
      var t, name :| IsTag(t, name) && d[b..p] <= t;
      TagFrom(d, b, t, name, p - b);
    }
  }
}
