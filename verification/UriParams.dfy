/** extract_uri_parameters (httpd.c): the parameters of a URI are split in place,
    by overwriting delimiters with NUL, into names and values inside the buffer. */
module UriParams {
  import opened Base

  const MAX_CGI_PARAMS := 16

  // ------------------------------------------------------------------ the split

  datatype Param = Param(name: string, value: Option<string>)

  function CutAt(s: string, c: char): string {
    match IndexOf(s, c) case Some(i) => s[..i] case None => s
  }

  function CutPair(piece: string): Param {
    match IndexOf(piece, '=')
    case Some(i) => Param(piece[..i], Some(piece[i + 1..]))
    case None => Param(piece, None)
  }

  /** At most `max` of the `&`-separated pieces; the last one ends at its first space. */
  function Split(s: string, max: nat): seq<Param>
    decreases max
  {
    if max == 0 then []
    else match IndexOf(s, '&')
      case Some(i) => [CutPair(s[..i])] + Split(s[i + 1..], max - 1)
      case None => [CutPair(CutAt(s, ' '))]
  }

  function Count(s: string, c: char): nat {
    if s == "" then 0 else (if s[0] == c then 1 else 0) + Count(s[1..], c)
  }

  lemma {:induction false} CountUpTo(s: string, c: char)
    ensures Count(s, c) == match IndexOf(s, c) case None => 0 case Some(i) => 1 + Count(s[i + 1..], c)
  {
    if s != "" && s[0] != c {
      CountUpTo(s[1..], c);
      match IndexOf(s[1..], c)
      case None =>
      case Some(i) => assert s[1..][i + 1..] == s[i + 2..];
    }
  }

  lemma {:induction false} SplitCount(s: string, max: nat)
    ensures |Split(s, max)| == if Count(s, '&') + 1 < max then Count(s, '&') + 1 else max
    decreases max
  {
    hide CutPair, CutAt, Count;
    if max > 0 {
      CountUpTo(s, '&');
      match IndexOf(s, '&')
      case None =>
      case Some(i) => SplitCount(s[i + 1..], max - 1);
    }
  }

  lemma PrefixCons(first: seq<Param>, m: seq<Param>, n: seq<Param>)
    requires m <= n
    ensures first + m <= first + n
  {
    assert n[..|m|] == m;
  }

  /** Keeping fewer pieces keeps the first ones. */
  lemma {:induction false} SplitKeepsFirst(s: string, max: nat, more: nat)
    requires max <= more
    ensures Split(s, max) <= Split(s, more)
    decreases max
  {
    hide *;
    if max == 0 {
      SplitNone(s);
    } else {
      match IndexOf(s, '&')
      case None => SplitLast(s, max, more);
      case Some(i) =>
        SplitCons(s, max, i);
        SplitCons(s, more, i);
        SplitKeepsFirst(s[i + 1..], max - 1, more - 1);
        PrefixCons([CutPair(s[..i])], Split(s[i + 1..], max - 1), Split(s[i + 1..], more - 1));
    }
  }

  lemma SplitNone(s: string)
    ensures Split(s, 0) == []
  {
  }

  lemma SplitLast(s: string, max: nat, more: nat)
    requires IndexOf(s, '&') == None && max > 0 && more > 0
    ensures Split(s, max) == Split(s, more)
  {
  }

  lemma SplitCons(s: string, max: nat, i: nat)
    requires IndexOf(s, '&') == Some(i) && max > 0
    ensures i < |s| && Split(s, max) == [CutPair(s[..i])] + Split(s[i + 1..], max - 1)
  {
    hide CutPair, CutAt;
  }

  function JoinPair(p: Param): string {
    match p.value case None => p.name case Some(v) => p.name + "=" + v
  }

  function Join(ps: seq<Param>): string {
    if ps == [] then "" else if |ps| == 1 then JoinPair(ps[0]) else JoinPair(ps[0]) + "&" + Join(ps[1..])
  }

  lemma CutPairJoins(piece: string)
    ensures JoinPair(CutPair(piece)) == piece && '=' !in CutPair(piece).name
  {
    match IndexOf(piece, '=')
    case None =>
    case Some(i) => assert piece == piece[..i] + "=" + piece[i + 1..];
  }

  /** Among the first `n` characters, each space has an `&` somewhere after it. */
  ghost predicate SpacesBelongToEarlierPieces(s: string, n: nat)
    requires n <= |s|
  {
    forall i :: 0 <= i < n && s[i] == ' ' ==> '&' in s[i..]
  }

  lemma SpacesShift(s: string, i: nat, n: nat)
    requires i < |s| && s[i] == '&' && i < n <= |s|
    requires SpacesBelongToEarlierPieces(s[i + 1..], n - i - 1)
    ensures SpacesBelongToEarlierPieces(s, n)
  {
    forall j | 0 <= j < n && s[j] == ' ' ensures '&' in s[j..] {
      if j <= i {
        assert s[j..][i - j] == '&';
      } else {
        assert s[i + 1..][j - i - 1..] == s[j..];
        assert s[i + 1..][j - i - 1] == ' ';
      }
    }
  }

  lemma JoinCons(p: Param, ps: seq<Param>)
    requires ps != []
    ensures Join([p] + ps) == JoinPair(p) + "&" + Join(ps)
  {
    assert ([p] + ps)[1..] == ps;
  }

  /** Joining what was split off rebuilds the parameters up to the first space after
      the last `&`, when there are no more pieces than are kept. */
  lemma {:induction false} JoinSplit(s: string, max: nat) returns (tail: string)
    requires Count(s, '&') < max
    ensures s == Join(Split(s, max)) + tail
    ensures '&' !in tail && (tail == "" || tail[0] == ' ')
    ensures SpacesBelongToEarlierPieces(s, |s| - |tail|)
    decreases max
  {
    hide *;
    CountUpTo(s, '&');
    match IndexOf(s, '&')
    case None =>
      tail := JoinLast(s, max);
    case Some(i) =>
      tail := JoinSplit(s[i + 1..], max - 1);
      JoinOfSplit(s, max, i);
      JoinMore(s, i, Join(Split(s[i + 1..], max - 1)), tail);
  }

  lemma JoinLast(s: string, max: nat) returns (tail: string)
    requires IndexOf(s, '&') == None && max > 0
    ensures s == Join(Split(s, max)) + tail
    ensures '&' !in tail && (tail == "" || tail[0] == ' ')
    ensures SpacesBelongToEarlierPieces(s, |s| - |tail|)
  {
    var kept := CutAt(s, ' ');
    tail := s[|kept|..];
    CutPairJoins(kept);
    assert s[..|kept|] == kept;
    hide CutPair;
  }

  lemma JoinMore(s: string, i: nat, j: string, tail: string)
    requires i < |s| && s[i] == '&' && s[i + 1..] == j + tail
    requires SpacesBelongToEarlierPieces(s[i + 1..], |j|)
    ensures s == s[..i] + "&" + j + tail
    ensures SpacesBelongToEarlierPieces(s, |s| - |tail|)
  {
    SpacesShift(s, i, |s| - |tail|);
    hide *;
    assert s == s[..i] + "&" + s[i + 1..];
  }

  lemma JoinOfSplit(s: string, max: nat, i: nat)
    requires IndexOf(s, '&') == Some(i) && max > 1
    ensures Join(Split(s, max)) == s[..i] + "&" + Join(Split(s[i + 1..], max - 1))
  {
    hide *;
    SplitCons(s, max, i);
    var first, rest := s[..i], s[i + 1..];
    SplitCount(rest, max - 1);
    CutPairJoins(first);
    JoinCons(CutPair(first), Split(rest, max - 1));
  }

  /** `all` are the parameters of the text `q`, told without cutting: each is a name
      without `=`, perhaps with a value; joined by `&` they rebuild `q`, up to the first
      space behind the last `&`. */
  ghost predicate AreParams(all: seq<Param>, q: string) {
    all != [] &&
    (forall p :: p in all ==> '&' !in JoinPair(p) && '=' !in p.name) &&
    exists tail :: q == Join(all) + tail && IsTail(q, tail)
  }

  ghost predicate IsTail(q: string, tail: string) {
    |tail| <= |q| && '&' !in tail && (tail == "" || tail[0] == ' ') && SpacesBelongToEarlierPieces(q, |q| - |tail|)
  }

  /** What is kept of the parameters of `q`: none if `q` is empty, and 16 at most. */
  ghost predicate AreKept(ps: seq<Param>, q: string) {
    if q == "" then ps == []
    else exists all :: AreParams(all, q) && ps == if |all| <= 16 then all else all[..16]
  }

  lemma {:induction false} NoAmpersandInside(s: string, max: nat)
    requires Count(s, '&') < max
    ensures forall p :: p in Split(s, max) ==> '&' !in JoinPair(p) && '=' !in p.name
    decreases max
  {
    hide CutPair, JoinPair, Count;
    CountUpTo(s, '&');
    match IndexOf(s, '&')
    case None => CutPairJoins(CutAt(s, ' '));
    case Some(i) =>
      CutPairJoins(s[..i]);
      NoAmpersandInside(s[i + 1..], max - 1);
  }

  lemma SplitIsParams(s: string, max: nat)
    requires Count(s, '&') < max
    ensures AreParams(Split(s, max), s)
  {
    hide Split, Count, Join, JoinPair;
    SplitCount(s, max);
    NoAmpersandInside(s, max);
    var tail := JoinSplit(s, max);
    assert IsTail(s, tail);
  }

  /** What the split keeps are the parameters of the text. */
  lemma SplitIsKept(s: string)
    ensures AreKept(if s == "" then [] else Split(s, MAX_CGI_PARAMS), s)
  {
    hide Split, Count, AreParams;
    if s != "" {
      var n := Count(s, '&') + 1;
      SplitIsParams(s, n);
      SplitCount(s, n);
      SplitCount(s, MAX_CGI_PARAMS);
      if n <= MAX_CGI_PARAMS {
        SplitKeepsFirst(s, n, MAX_CGI_PARAMS);
      } else {
        SplitKeepsFirst(s, MAX_CGI_PARAMS, n);
      }
    }
  }

  lemma FirstAt(s: string, c: char, i: nat)
    requires i < |s| && s[i] == c && c !in s[..i]
    ensures IndexOf(s, c) == Some(i)
  {
    var j := IndexOf(s, c).value;
    assert forall k :: 0 <= k < i ==> s[..i][k] == s[k];
    assert forall k :: 0 <= k < j ==> s[..j][k] == s[k];
  }

  /** A pair is what its text is cut into. */
  lemma CutJoined(p: Param)
    requires '=' !in p.name
    ensures CutPair(JoinPair(p)) == p
  {
    match p.value
    case None =>
    case Some(v) =>
      var t := p.name + "=" + v;
      assert t[..|p.name|] == p.name && t[|p.name| + 1..] == v;
      FirstAt(t, '=', |p.name|);
  }

  /** A text has no other parameters than those it is split into. */
  lemma {:induction false} ParamsAreSplit(all: seq<Param>, q: string, tail: string, max: nat)
    requires all != [] && |all| <= max && q == Join(all) + tail && IsTail(q, tail)
    requires forall p :: p in all ==> '&' !in JoinPair(p) && '=' !in p.name
    ensures Split(q, max) == all
    decreases |all|
  {
    hide *;
    var first := JoinPair(all[0]);
    CutJoined(all[0]);
    JoinUnfolds(all);
    TailIs(q, tail);
    if |all| == 1 {
      NoAmpersand(first, tail, q);
      CutBeforeTail(first, tail, q);
      SplitOne(q, max, first);
    } else {
      var rest := Join(all[1..]);
      assert q == first + "&" + rest + tail;
      assert q[..|first|] == first && q[|first| + 1..] == rest + tail;
      FirstAt(q, '&', |first|);
      TailStays(q, |first|, tail);
      ParamsAreSplit(all[1..], q[|first| + 1..], tail, max - 1);
      SplitCons(q, max, |first|);
    }
  }

  lemma JoinUnfolds(all: seq<Param>)
    requires all != []
    ensures Join(all) == if |all| == 1 then JoinPair(all[0]) else JoinPair(all[0]) + "&" + Join(all[1..])
  {
    hide JoinPair;
  }

  lemma TailIs(q: string, tail: string)
    requires IsTail(q, tail)
    ensures '&' !in tail
  {
  }

  lemma SplitOne(q: string, max: nat, first: string)
    requires max > 0 && '&' !in q && CutAt(q, ' ') == first
    ensures Split(q, max) == [CutPair(first)]
  {
    hide CutPair, CutAt;
  }

  lemma NoAmpersand(first: string, tail: string, q: string)
    requires q == first + tail && '&' !in first && '&' !in tail
    ensures '&' !in q
  {
  }

  lemma CutBeforeTail(first: string, tail: string, q: string)
    requires q == first + tail && IsTail(q, tail) && '&' !in q
    ensures CutAt(q, ' ') == first
  {
    assert q[..|first|] == first;
    forall i | 0 <= i < |first| ensures first[i] != ' ' { assert '&' !in q[i..]; }
    if tail != "" { FirstAt(q, ' ', |first|); } else { assert q == first; }
  }

  lemma TailStays(q: string, i: nat, tail: string)
    requires i < |q| && IsTail(q, tail) && i + 1 + |tail| <= |q|
    ensures IsTail(q[i + 1..], tail)
  {
    var r := q[i + 1..];
    forall j | 0 <= j < |r| - |tail| && r[j] == ' ' ensures '&' in r[j..] {
      assert r[j..] == q[i + 1 + j..];
    }
  }

  lemma ParamsGive(all: seq<Param>, q: string) returns (tail: string)
    requires AreParams(all, q)
    ensures all != [] && q == Join(all) + tail && IsTail(q, tail)
    ensures forall p :: p in all ==> '&' !in JoinPair(p) && '=' !in p.name
  {
    hide JoinPair, Join, IsTail;
    tail :| q == Join(all) + tail && IsTail(q, tail);
  }

  /** The parameters of a text are determined by it. */
  lemma ParamsAreUnique(q: string, a: seq<Param>, b: seq<Param>)
    requires AreParams(a, q) && AreParams(b, q)
    ensures a == b
  {
    hide *;
    var s := ParamsGive(a, q);
    var t := ParamsGive(b, q);
    ParamsAreSplit(a, q, s, |a| + |b|);
    ParamsAreSplit(b, q, t, |a| + |b|);
  }

  // -------------------------------------------------------- strings in a buffer

  /** The C string `t` is at `i`: its characters, then a NUL. */
  ghost predicate StringAt(b: seq<char>, i: nat, t: string) {
    i + |t| < |b| && b[i..i + |t|] == t && NUL !in t && b[i + |t|] == NUL
  }

  lemma StringAtIsCString(b: seq<char>, i: nat, t: string)
    requires StringAt(b, i, t)
    ensures CString(b[i..]) == t
    decreases |t|
  {
    if t != "" {
      assert b[i] == b[i..i + |t|][0] == t[0];
      assert b[i + 1..i + 1 + |t[1..]|] == t[1..];
      StringAtIsCString(b, i + 1, t[1..]);
      assert b[i..][1..] == b[i + 1..];
    }
  }

  /** Cutting the string at `i` by a NUL in place of its k-th character. */
  lemma CutString(b: seq<char>, i: nat, t: string, k: nat)
    requires StringAt(b, i, t) && k < |t|
    ensures var b' := b[i + k := NUL];
            StringAt(b', i, t[..k]) && StringAt(b', i + k + 1, t[k + 1..])
  {
    var b' := b[i + k := NUL];
    assert b'[i..i + k] == b[i..i + |t|][..k];
    assert b'[i + k + 1..i + |t|] == b[i..i + |t|][k + 1..];
  }

  /** A string lying wholly in `b[..n]` is not touched by changes from `n` on. */
  lemma StringKept(b: seq<char>, b': seq<char>, n: nat, i: nat, t: string)
    requires n <= |b| == |b'| && b[..n] == b'[..n]
    requires StringAt(b, i, t) && i + |t| < n
    ensures StringAt(b', i, t)
  {
    assert b'[i..i + |t|] == b'[..n][i..i + |t|] == b[i..i + |t|];
    assert b'[i + |t|] == b'[..n][i + |t|] == b[..n][i + |t|];
  }

  /** The name and the value of `p` are at the given places. */
  ghost predicate ParamAt(b: seq<char>, name: nat, value: Option<nat>, p: Param) {
    StringAt(b, name, p.name) &&
    match p.value
    case None => value == None
    case Some(v) => value == Some(name + |p.name| + 1) && StringAt(b, name + |p.name| + 1, v)
  }

  /** Where the place of `p` ends. */
  function ParamEnd(name: nat, p: Param): nat {
    match p.value
    case None => name + |p.name|
    case Some(v) => name + |p.name| + 1 + |v|
  }

  lemma ParamKept(b: seq<char>, b': seq<char>, n: nat, name: nat, value: Option<nat>, p: Param)
    requires n <= |b| == |b'| && b[..n] == b'[..n]
    requires ParamAt(b, name, value, p) && ParamEnd(name, p) < n
    ensures ParamAt(b', name, value, p)
  {
    StringKept(b, b', n, name, p.name);
    if p.value.Some? { StringKept(b, b', n, name + |p.name| + 1, p.value.value); }
  }

  ghost predicate IsDelimiter(c: char) {
    c == '&' || c == '=' || c == ' '
  }

  /** `b'` is `b` with some delimiters between `from` and `to` replaced by NUL. */
  ghost predicate OnlyDelimitersCut(b: seq<char>, b': seq<char>, from: nat, to: nat) {
    |b| == |b'| &&
    forall i :: 0 <= i < |b| ==> b'[i] == b[i] || (from <= i < to && IsDelimiter(b[i]) && b'[i] == NUL)
  }

  lemma CutsCompose(a: seq<char>, b: seq<char>, c: seq<char>, from: nat, to: nat)
    requires OnlyDelimitersCut(a, b, from, to) && OnlyDelimitersCut(b, c, from, to)
    ensures OnlyDelimitersCut(a, c, from, to)
  {
  }

  lemma CutsWiden(a: seq<char>, b: seq<char>, from: nat, to: nat, from': nat, to': nat)
    requires OnlyDelimitersCut(a, b, from, to) && from' <= from && to <= to'
    ensures OnlyDelimitersCut(a, b, from', to')
  {
  }

  // ---------------------------------------------------------------- the method

  /** strchr on the string at `i`. */
  method StrChr(buf: array<char>, i: nat, c: char, ghost t: string) returns (at: Option<nat>)
    requires StringAt(buf[..], i, t)
    ensures at == IndexOf(t, c)
  {
    StringAtIsCString(buf[..], i, t);
    assert buf[i..] == buf[..][i..];
    at := IndexOf(CString(buf[i..]), c);
  }

  /** Overwrites the delimiter `t[k]` of the string at `i`. */
  method Cut(buf: array<char>, i: nat, k: nat, ghost t: string)
    requires StringAt(buf[..], i, t) && k < |t| && IsDelimiter(t[k])
    modifies buf
    ensures StringAt(buf[..], i, t[..k]) && StringAt(buf[..], i + k + 1, t[k + 1..])
    ensures OnlyDelimitersCut(old(buf[..]), buf[..], i, i + |t|)
  {
    CutString(buf[..], i, t, k);
    assert t[k] == buf[i..i + |t|][k];
    buf[i + k] := NUL;
    assert buf[..] == old(buf[..])[i + k := NUL];
  }

  /** Ends the piece at `pair` and finds the next one: at an `&` the string is cut,
      else at its first space.  `text` is the string at `pair`. */
  method EndPiece(buf: array<char>, pair: nat, ghost text: string) returns (next: Option<nat>)
    requires StringAt(buf[..], pair, text)
    modifies buf
    ensures OnlyDelimitersCut(old(buf[..]), buf[..], pair, pair + |text|)
    ensures match IndexOf(text, '&')
            case Some(i) => next == Some(pair + i + 1) && StringAt(buf[..], pair, text[..i])
                            && StringAt(buf[..], pair + i + 1, text[i + 1..])
            case None => next == None && StringAt(buf[..], pair, CutAt(text, ' '))
  {
    hide StringAt;
    var found := StrChr(buf, pair, '&', text);
    if found.Some? {
      Cut(buf, pair, found.value, text);
      next := Some(pair + found.value + 1);
    } else {
      found := StrChr(buf, pair, ' ', text);
      if found.Some? {
        Cut(buf, pair, found.value, text);
      }
      next := None;
    }
  }

  /** Cuts the piece at `pair` at its first `=`. */
  method CutEquals(buf: array<char>, pair: nat, ghost piece: string) returns (value: Option<nat>)
    requires StringAt(buf[..], pair, piece)
    modifies buf
    ensures OnlyDelimitersCut(old(buf[..]), buf[..], pair, pair + |piece|)
    ensures ParamAt(buf[..], pair, value, CutPair(piece))
  {
    hide StringAt;
    var equals := StrChr(buf, pair, '=', piece);
    if equals.Some? {
      Cut(buf, pair, equals.value, piece);
      value := Some(pair + equals.value + 1);
    } else {
      value := None;
    }
  }

  /** The first `n` parameters are in place, one after the other, before `limit`. */
  ghost predicate InPlace(b: seq<char>, names: seq<nat>, values: seq<Option<nat>>, ps: seq<Param>,
                          n: nat, from: nat, limit: nat)
    requires n <= |names| && n <= |values| && n <= |ps|
  {
    (forall k :: 0 <= k < n ==> ParamAt(b, names[k], values[k], ps[k])) &&
    (forall k :: 0 <= k < n ==> from <= names[k] && ParamEnd(names[k], ps[k]) < limit) &&
    (forall j, k :: 0 <= j < k < n ==> ParamEnd(names[j], ps[j]) < names[k])
  }

  lemma InPlaceKept(b: seq<char>, b': seq<char>, names: seq<nat>, values: seq<Option<nat>>, ps: seq<Param>,
                    n: nat, from: nat, limit: nat)
    requires n <= |names| && n <= |values| && n <= |ps|
    requires InPlace(b, names, values, ps, n, from, limit)
    requires limit <= |b| == |b'| && b[..limit] == b'[..limit]
    ensures InPlace(b', names, values, ps, n, from, limit)
  {
    forall k | 0 <= k < n ensures ParamAt(b', names[k], values[k], ps[k]) {
      ParamKept(b, b', limit, names[k], values[k], ps[k]);
    }
  }

  /** The piece that the turn at a string `r` takes, and the string it leaves. */
  ghost function PieceOf(r: string): string {
    match IndexOf(r, '&') case Some(i) => r[..i] case None => CutAt(r, ' ')
  }

  ghost function RestOf(r: string): string {
    match IndexOf(r, '&') case Some(i) => r[i + 1..] case None => ""
  }

  lemma PieceIsWithin(r: string)
    ensures match IndexOf(r, '&')
            case Some(i) => |PieceOf(r)| == i && i + 1 + |RestOf(r)| == |r|
            case None => |PieceOf(r)| <= |r|
  {
  }

  lemma SplitMore(split: seq<Param>, max: nat, ps: seq<Param>, r: string)
    requires max > 0 && split == ps + Split(r, max)
    ensures split == ps + [CutPair(PieceOf(r))] + if '&' in r then Split(RestOf(r), max - 1) else []
  {
    hide CutPair, CutAt;
  }

  /** What one turn of the loop does with the piece at `pair`. */
  method TakePiece(buf: array<char>, pair: nat, ghost r: string) returns (next: Option<nat>, value: Option<nat>)
    requires StringAt(buf[..], pair, r)
    modifies buf
    ensures OnlyDelimitersCut(old(buf[..]), buf[..], pair, pair + |r|)
    ensures ParamAt(buf[..], pair, value, CutPair(PieceOf(r)))
    ensures match IndexOf(r, '&')
            case Some(i) => next == Some(pair + i + 1) && StringAt(buf[..], pair + i + 1, RestOf(r))
            case None => next == None
  {
    hide CutPair, StringAt, ParamAt, OnlyDelimitersCut;
    next := EndPiece(buf, pair, r);
    ghost var before, mid := old(buf[..]), buf[..];
    ghost var i := IndexOf(r, '&');
    ghost var piece := if i.Some? then r[..i.value] else CutAt(r, ' ');
    value := CutEquals(buf, pair, piece);
    if i.Some? { StringUncut(mid, buf[..], pair, pair + |piece|, next.value, r[i.value + 1..]); }
    CutsWiden(mid, buf[..], pair, pair + |piece|, pair, pair + |r|);
    CutsCompose(before, mid, buf[..], pair, pair + |r|);
  }

  lemma StringUncut(b: seq<char>, b': seq<char>, from: nat, to: nat, i: nat, t: string)
    requires OnlyDelimitersCut(b, b', from, to) && to <= i && StringAt(b, i, t)
    ensures StringAt(b', i, t)
  {
    assert b'[i..i + |t|] == b[i..i + |t|];
  }

  lemma PieceFits(piece: string, pair: nat)
    ensures ParamEnd(pair, CutPair(piece)) == pair + |piece|
  {
  }

  /** One more parameter is in place behind the others. */
  lemma PieceInPlace(b: seq<char>, b': seq<char>, names: seq<nat>, values: seq<Option<nat>>,
                     names': seq<nat>, values': seq<Option<nat>>, ps: seq<Param>, piece: string,
                     from: nat, pair: nat, limit: nat, cutEnd: nat)
    requires |ps| < |names| == |names'| && |ps| < |values| == |values'|
    requires InPlace(b, names, values, ps, |ps|, from, pair)
    requires pair + |piece| < limit <= |b| && from <= pair && OnlyDelimitersCut(b, b', pair, cutEnd)
    requires names' == names[|ps| := pair] && values' == values[|ps| := values'[|ps|]]
    requires ParamAt(b', pair, values'[|ps|], CutPair(piece))
    ensures InPlace(b', names', values', ps + [CutPair(piece)], |ps| + 1, from, limit)
  {
    hide ParamAt, ParamEnd, CutPair;
    assert b[..pair] == b'[..pair];
    InPlaceKept(b, b', names, values, ps, |ps|, from, pair);
    PieceFits(piece, pair);
  }

  lemma EndLimit(b: seq<char>, names: seq<nat>, values: seq<Option<nat>>, ps: seq<Param>,
                 n: nat, from: nat, limit: nat, limit': nat)
    requires n <= |names| && n <= |values| && n <= |ps| && limit <= limit'
    requires InPlace(b, names, values, ps, n, from, limit)
    ensures InPlace(b, names, values, ps, n, from, limit')
  {
    hide ParamAt, ParamEnd, CutPair;
  }

  /** Between two turns: `ps` are in place below `limit`, and if the loop goes on at
      `pair`, the string `r` there gives the parameters still to come. */
  ghost predicate Progress(b0: seq<char>, b: seq<char>, names: seq<nat>, values: seq<Option<nat>>, ps: seq<Param>,
                           start: nat, text: string, pair: Option<nat>, r: string)
  {
    var end := start + |text|;
    |names| == |values| == MAX_CGI_PARAMS && |ps| <= MAX_CGI_PARAMS && end < |b| &&
    OnlyDelimitersCut(b0, b, start, end) &&
    match pair
    case None =>
      Split(text, MAX_CGI_PARAMS) == ps && InPlace(b, names, values, ps, |ps|, start, end + 1)
    case Some(at) =>
      start <= at && at + |r| == end && StringAt(b, at, r) &&
      Split(text, MAX_CGI_PARAMS) == ps + Split(r, MAX_CGI_PARAMS - |ps|) &&
      InPlace(b, names, values, ps, |ps|, start, at)
  }

  lemma ProgressStarts(b: seq<char>, names: seq<nat>, values: seq<Option<nat>>, start: nat, text: string)
    requires StringAt(b, start, text) && |names| == |values| == MAX_CGI_PARAMS
    ensures Progress(b, b, names, values, [], start, text, Some(start), text)
  {
    hide Split;
    assert [] + Split(text, MAX_CGI_PARAMS) == Split(text, MAX_CGI_PARAMS);
  }

  lemma ProgressTurns(b0: seq<char>, b: seq<char>, b': seq<char>,
                      names: seq<nat>, values: seq<Option<nat>>, names': seq<nat>, values': seq<Option<nat>>,
                      ps: seq<Param>, start: nat, text: string, at: nat, r: string,
                      next: Option<nat>, value: Option<nat>)
    requires Progress(b0, b, names, values, ps, start, text, Some(at), r) && |ps| < MAX_CGI_PARAMS
    requires OnlyDelimitersCut(b, b', at, at + |r|)
    requires ParamAt(b', at, value, CutPair(PieceOf(r)))
    requires match IndexOf(r, '&')
             case Some(i) => next == Some(at + i + 1) && StringAt(b', at + i + 1, RestOf(r))
             case None => next == None
    requires names' == names[|ps| := at] && values' == values[|ps| := value]
    ensures Progress(b0, b', names', values', ps + [CutPair(PieceOf(r))], start, text, next, RestOf(r))
  {
    hide *;
    var end, piece := start + |text|, PieceOf(r);
    var limit := if next.Some? then next.value else end + 1;
    ProgressGives(b0, b, names, values, ps, start, text, at, r);
    SplitMore(Split(text, MAX_CGI_PARAMS), MAX_CGI_PARAMS - |ps|, ps, r);
    PieceIsWithin(r);
    CutsWiden(b, b', at, at + |r|, start, end);
    CutsCompose(b0, b, b', start, end);
    SameLength(b, b', at, at + |r|);
    PieceInPlace(b, b', names, values, names', values', ps, piece, start, at, limit, at + |r|);
    match next
    case None => ProgressLast(b0, b', names', values', ps + [CutPair(piece)], start, text, RestOf(r));
    case Some(i) => ProgressNext(b0, b', names', values', ps + [CutPair(piece)], start, text, i, RestOf(r));
  }

  lemma ProgressGives(b0: seq<char>, b: seq<char>, names: seq<nat>, values: seq<Option<nat>>, ps: seq<Param>,
                      start: nat, text: string, at: nat, r: string)
    requires Progress(b0, b, names, values, ps, start, text, Some(at), r)
    ensures |names| == |values| == MAX_CGI_PARAMS && |ps| <= MAX_CGI_PARAMS
    ensures start <= at && at + |r| == start + |text| < |b|
    ensures StringAt(b, at, r) && OnlyDelimitersCut(b0, b, start, start + |text|)
    ensures Split(text, MAX_CGI_PARAMS) == ps + Split(r, MAX_CGI_PARAMS - |ps|)
    ensures InPlace(b, names, values, ps, |ps|, start, at)
  {
  }

  lemma ProgressNext(b0: seq<char>, b: seq<char>, names: seq<nat>, values: seq<Option<nat>>, ps: seq<Param>,
                     start: nat, text: string, at: nat, r: string)
    requires |names| == |values| == MAX_CGI_PARAMS && |ps| <= MAX_CGI_PARAMS
    requires start <= at && at + |r| == start + |text| < |b|
    requires StringAt(b, at, r) && OnlyDelimitersCut(b0, b, start, start + |text|)
    requires Split(text, MAX_CGI_PARAMS) == ps + Split(r, MAX_CGI_PARAMS - |ps|)
    requires InPlace(b, names, values, ps, |ps|, start, at)
    ensures Progress(b0, b, names, values, ps, start, text, Some(at), r)
  {
  }

  lemma ProgressLast(b0: seq<char>, b: seq<char>, names: seq<nat>, values: seq<Option<nat>>, ps: seq<Param>,
                     start: nat, text: string, r: string)
    requires |names| == |values| == MAX_CGI_PARAMS && |ps| <= MAX_CGI_PARAMS && start + |text| < |b|
    requires OnlyDelimitersCut(b0, b, start, start + |text|) && Split(text, MAX_CGI_PARAMS) == ps
    requires InPlace(b, names, values, ps, |ps|, start, start + |text| + 1)
    ensures Progress(b0, b, names, values, ps, start, text, None, r)
  {
  }

  lemma SameLength(b: seq<char>, b': seq<char>, from: nat, to: nat)
    requires OnlyDelimitersCut(b, b', from, to)
    ensures |b| == |b'|
  {
  }

  lemma ProgressEnds(b0: seq<char>, b: seq<char>, names: seq<nat>, values: seq<Option<nat>>, ps: seq<Param>,
                     start: nat, text: string, pair: Option<nat>, r: string)
    requires Progress(b0, b, names, values, ps, start, text, pair, r)
    requires pair.Some? ==> |ps| == MAX_CGI_PARAMS
    ensures ps == Split(text, MAX_CGI_PARAMS)
    ensures InPlace(b, names, values, ps, |ps|, start, start + |text| + 1)
    ensures OnlyDelimitersCut(b0, b, start, start + |text|)
  {
    if pair.Some? {
      assert Split(r, 0) == [];
      EndLimit(b, names, values, ps, |ps|, start, pair.value, start + |text| + 1);
    }
  }

  method SplitAll(buf: array<char>, start: nat, names: array<nat>, values: array<Option<nat>>, ghost text: string)
    returns (loop: nat)
    requires names.Length == MAX_CGI_PARAMS == values.Length
    requires StringAt(buf[..], start, text)
    modifies buf, names, values
    ensures var ps := Split(text, MAX_CGI_PARAMS);
            loop == |ps| <= MAX_CGI_PARAMS &&
            InPlace(buf[..], names[..], values[..], ps, loop, start, start + |text| + 1) &&
            OnlyDelimitersCut(old(buf[..]), buf[..], start, start + |text|)
  {
    hide *;
    loop := 0;
    var pair := Some(start);
    ghost var b0, ps, r := buf[..], [], text;
    ProgressStarts(b0, names[..], values[..], start, text);
    while loop < MAX_CGI_PARAMS && pair.Some?
      invariant loop == |ps| <= MAX_CGI_PARAMS
      invariant Progress(b0, buf[..], names[..], values[..], ps, start, text, pair, r)
      decreases MAX_CGI_PARAMS - loop
    {
      ghost var b, ns, vs := buf[..], names[..], values[..];
      var at := pair.value;
      names[loop] := at;
      ProgressGives(b0, b, ns, vs, ps, start, text, at, r);
      pair, values[loop] := TakePiece(buf, at, r);
      ProgressTurns(b0, b, buf[..], ns, vs, names[..], values[..], ps, start, text, at, r, pair, values[loop]);
      ps, r := ps + [CutPair(PieceOf(r))], RestOf(r);
      loop := loop + 1;
    }
    ProgressEnds(b0, buf[..], names[..], values[..], ps, start, text, pair, r);
  }

  lemma TextInBuffer(b: seq<char>, i: nat)
    requires i < |b| && NUL in b[i..]
    ensures StringAt(b, i, CString(b[i..]))
  {
  }

  method ExtractUriParameters(buf: array<char>, params: Option<nat>,
                              names: array<nat>, values: array<Option<nat>>) returns (count: nat)
    requires names.Length == MAX_CGI_PARAMS == values.Length
    requires params.Some? ==> params.value < buf.Length && NUL in buf[params.value..]
    modifies buf, names, values
    ensures params.None? ==> count == 0 && buf[..] == old(buf[..])
    ensures params.Some? ==>
      var text := CString(old(buf[params.value..]));
      var ps := if text == "" then [] else Split(text, MAX_CGI_PARAMS);
      count == |ps| <= MAX_CGI_PARAMS &&
      InPlace(buf[..], names[..], values[..], ps, count, params.value, params.value + |text| + 1) &&
      OnlyDelimitersCut(old(buf[..]), buf[..], params.value, params.value + |text|)
  {
    if params.None? || buf[params.value] == NUL {
      return 0;
    }
    TextInBuffer(buf[..], params.value);
    count := SplitAll(buf, params.value, names, values, CString(buf[params.value..]));
  }
}
