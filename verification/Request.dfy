/** From the bytes of a GET request to an open file: finding the URI, calling a CGI
    handler for it, and trying the pages that may answer it. */
module Request {
  import opened Base
  import opened FileSystem
  import opened UriParams

  // ---------------------------------------------------------------- the URI

  const URI_AT: nat := 4

  predicate MarkAt(s: seq<char>, i: nat) {
    i + 5 <= |s| && s[i..i + 5] == " HTTP"
  }

  /** The first " HTTP" from `i` on that does not end the packet. */
  function FindMark(s: seq<char>, i: nat): (r: Option<nat>)
    ensures r.Some? ==> i <= r.value < |s| - 5 && MarkAt(s, r.value)
    ensures forall j :: i <= j < (if r.Some? then r.value else |s| - 5) ==> !MarkAt(s, j)
    decreases |s| - i
  {
    if i + 5 >= |s| then None else if MarkAt(s, i) then Some(i) else FindMark(s, i + 1)
  }

  predicate IsGet(s: seq<char>) {
    4 <= |s| && s[..4] == "GET " && FindMark(s, URI_AT).Some?
  }

  function UriOf(s: seq<char>): string
    requires IsGet(s)
  {
    CString(s[URI_AT..FindMark(s, URI_AT).value])
  }

  /** The packet is a GET line with the text `u` for a URI, and more behind the marker. */
  ghost predicate GetText(s: seq<char>, u: string, rest: string) {
    s == "GET " + u + " HTTP" + rest && rest != ""
  }

  lemma GetIff(s: seq<char>)
    ensures IsGet(s) <==> exists u, rest :: GetText(s, u, rest)
  {
    if IsGet(s) {
      var at := FindMark(s, URI_AT).value;
      assert s == s[..4] + s[4..at] + s[at..at + 5] + s[at + 5..];
      assert GetText(s, s[4..at], s[at + 5..]);
    }
    if u, rest :| GetText(s, u, rest) {
      assert s[..4] == "GET " && s[4 + |u|..4 + |u| + 5] == " HTTP";
      assert MarkAt(s, 4 + |u|);
    }
  }

  /** The URI is the text up to the first marker, or to a NUL before it. */
  lemma UriIs(s: seq<char>, u: string, rest: string)
    requires GetText(s, u, rest) && forall j :: 4 <= j < 4 + |u| ==> !MarkAt(s, j)
    ensures IsGet(s) && UriOf(s) == CString(u)
  {
    hide CString;
    GetIff(s);
    MarkBehind(s, u, rest);
    assert FindMark(s, URI_AT) == Some(4 + |u|);
  }

  lemma MarkBehind(s: seq<char>, u: string, rest: string)
    requires GetText(s, u, rest)
    ensures 4 + |u| + 5 < |s| && MarkAt(s, 4 + |u|) && s[4..4 + |u|] == u
  {
  }

  /** Looks for the end of the URI, and puts a NUL there. */
  method TerminateUri(p: array<char>) returns (at: Option<nat>)
    requires p.Length >= 9
    modifies p
    ensures at == FindMark(old(p[..]), URI_AT)
    ensures p[..] == if at.Some? then old(p[..])[at.value := NUL] else old(p[..])
  {
    hide FindMark;
    ghost var s := p[..];
    var i := URI_AT;
    while i < p.Length - 5
      invariant URI_AT <= i <= p.Length - 5 && p[..] == s
      invariant FindMark(s, URI_AT) == FindMark(s, i)
    {
      FindMarkStep(s, i);
      assert s[i..i + 5] == [p[i], p[i + 1], p[i + 2], p[i + 3], p[i + 4]];
      if p[i] == ' ' && p[i + 1] == 'H' && p[i + 2] == 'T' && p[i + 3] == 'T' && p[i + 4] == 'P' {
        p[i] := NUL;
        return Some(i);
      }
      i := i + 1;
    }
    at := None;
  }

  lemma FindMarkStep(s: seq<char>, i: nat)
    requires i + 5 < |s|
    ensures FindMark(s, i) == if MarkAt(s, i) then Some(i) else FindMark(s, i + 1)
  {
  }

  /** With the NUL in place, the URI is a C string of the packet. */
  lemma UriInPlace(s: seq<char>, s': seq<char>)
    requires IsGet(s) && s' == s[FindMark(s, URI_AT).value := NUL]
    ensures StringAt(s', URI_AT, UriOf(s))
  {
    var at := FindMark(s, URI_AT).value;
    CStringOfBuffer(s'[URI_AT..], at - URI_AT);
    assert s'[URI_AT..][..at - URI_AT] == s[URI_AT..at];
    assert s'[URI_AT..][at - URI_AT] == NUL;
    TextInBuffer(s', URI_AT);
  }

  // -------------------------------------------------------------------- CGI

  datatype CgiConfig = CgiConfig(names: seq<string>, handler: (nat, seq<Param>) -> string)

  function FindCgi(names: seq<string>, base: string, from: nat): (r: Option<nat>)
    requires from <= |names|
    ensures r.None? ==> forall i :: from <= i < |names| ==> CString(names[i]) != base
    ensures r.Some? ==> from <= r.value < |names| && CString(names[r.value]) == base
    ensures r.Some? ==> forall i :: from <= i < r.value ==> CString(names[i]) != base
    decreases |names| - from
  {
    if from == |names| then None
    else if CString(names[from]) == base then Some(from)
    else FindCgi(names, base, from + 1)
  }

  /** The parameters behind the `?` of a URI. */
  function ParamsOf(full: string): seq<Param> {
    match IndexOf(full, '?')
    case None => []
    case Some(q) => if full[q + 1..] == "" then [] else Split(full[q + 1..], MAX_CGI_PARAMS)
  }

  /** The name that the file system is asked for.  With CGI handlers registered, a URI
      that none of them takes keeps its parameters; with none registered it loses them. */
  function RequestedName(cgi: CgiConfig, full: string): string {
    var base := CutAt(full, '?');
    if cgi.names == [] then base
    else match FindCgi(cgi.names, base, 0)
      case None => full
      case Some(i) => cgi.handler(i, ParamsOf(full))
  }

  /** The URI `full` is `base`, with the text `q` behind its first `?`, if it has one. */
  ghost predicate IsAsked(full: string, base: string, q: Option<string>) {
    '?' !in base && match q case None => full == base case Some(t) => full == base + "?" + t
  }

  /** CGI handler `i` is the first one registered for `base`. */
  ghost predicate Handles(cgi: CgiConfig, base: string, i: nat) {
    i < |cgi.names| && CString(cgi.names[i]) == base && forall j :: 0 <= j < i ==> CString(cgi.names[j]) != base
  }

  ghost predicate IsGiven(ps: seq<Param>, q: Option<string>) {
    match q case None => ps == [] case Some(t) => AreKept(ps, t)
  }

  /** `uri` is what is to be opened for `full`: the answer of the first handler of that name
      to the parameters; without a handler of that name all of `full`, and without any
      handlers what comes before the parameters. */
  ghost predicate ResolvesTo(cgi: CgiConfig, full: string, uri: string) {
    exists base, q :: IsAsked(full, base, q) &&
      (cgi.names == [] ==> uri == base) &&
      (forall i: nat :: Handles(cgi, base, i) ==> exists ps :: uri == cgi.handler(i, ps) && IsGiven(ps, q)) &&
      (cgi.names != [] && (forall i: nat :: !Handles(cgi, base, i)) ==> uri == full)
  }

  lemma AskedOnce(full: string, base: string, q: Option<string>)
    requires IsAsked(full, base, q)
    ensures base == CutAt(full, '?')
    ensures q == match IndexOf(full, '?') case None => None case Some(i) => Some(full[i + 1..])
  {
    if q.Some? {
      assert full[..|base|] == base && full[|base| + 1..] == q.value;
      FirstAt(full, '?', |base|);
    }
  }

  /** There is only one way to read a URI. */
  lemma ResolvedAs(cgi: CgiConfig, full: string, uri: string, base: string, q: Option<string>)
    requires ResolvesTo(cgi, full, uri) && IsAsked(full, base, q)
    ensures cgi.names == [] ==> uri == base
    ensures forall i: nat :: Handles(cgi, base, i) ==> exists ps :: uri == cgi.handler(i, ps) && IsGiven(ps, q)
    ensures cgi.names != [] && (forall i: nat :: !Handles(cgi, base, i)) ==> uri == full
  {
    hide Handles, IsGiven, CutAt;
    forall base', q' | IsAsked(full, base', q') ensures base' == base && q' == q {
      AskedOnce(full, base, q);
      AskedOnce(full, base', q');
    }
  }

  lemma RequestedNameIs(cgi: CgiConfig, full: string)
    ensures ResolvesTo(cgi, full, RequestedName(cgi, full))
  {
    hide Split, AreKept, CString;
    var base, at := CutAt(full, '?'), IndexOf(full, '?');
    var q := match at case None => None case Some(i) => Some(full[i + 1..]);
    assert IsAsked(full, base, q) by {
      if at.Some? { assert full == full[..at.value] + "?" + full[at.value + 1..]; }
    }
    if q.Some? { SplitIsKept(q.value); }
    assert IsGiven(ParamsOf(full), q);
    var uri := RequestedName(cgi, full);
    forall i: nat | Handles(cgi, base, i) ensures exists ps :: uri == cgi.handler(i, ps) && IsGiven(ps, q) {
      assert FindCgi(cgi.names, base, 0) == Some(i);
    }
    if f: nat :| FindCgi(cgi.names, base, 0) == Some(f) { assert Handles(cgi, base, f); }
  }

  function StringFrom(b: seq<char>, i: nat): string {
    if i <= |b| then CString(b[i..]) else ""
  }

  function ReadParams(b: seq<char>, names: seq<nat>, values: seq<Option<nat>>, n: nat): seq<Param>
    requires n <= |names| && n <= |values|
  {
    if n == 0 then []
    else ReadParams(b, names, values, n - 1) +
         [Param(StringFrom(b, names[n - 1]),
                match values[n - 1] case None => None case Some(v) => Some(StringFrom(b, v)))]
  }

  lemma ReadOne(b: seq<char>, name: nat, value: Option<nat>, p: Param)
    requires ParamAt(b, name, value, p)
    ensures StringFrom(b, name) == p.name
    ensures match value case None => p.value == None case Some(v) => p.value == Some(StringFrom(b, v))
  {
    hide StringAt, StringFrom;
    StringFromIs(b, name, p.name);
    if p.value.Some? { StringFromIs(b, name + |p.name| + 1, p.value.value); }
  }

  lemma StringFromIs(b: seq<char>, i: nat, t: string)
    requires StringAt(b, i, t)
    ensures StringFrom(b, i) == t
  {
    StringAtIsCString(b, i, t);
  }

  lemma {:induction false} ReadBack(b: seq<char>, names: seq<nat>, values: seq<Option<nat>>, ps: seq<Param>, n: nat)
    requires n <= |names| && n <= |values| && n <= |ps|
    requires forall k :: 0 <= k < n ==> ParamAt(b, names[k], values[k], ps[k])
    ensures ReadParams(b, names, values, n) == ps[..n]
  {
    hide ParamAt, StringFrom;
    if n > 0 {
      ReadBack(b, names, values, ps, n - 1);
      ReadOne(b, names[n - 1], values[n - 1], ps[n - 1]);
      assert ps[..n] == ps[..n - 1] + [ps[n - 1]];
    }
  }

  lemma InPlaceAt(b: seq<char>, names: seq<nat>, values: seq<Option<nat>>, ps: seq<Param>,
                  n: nat, from: nat, limit: nat)
    requires n <= |names| && n <= |values| && n <= |ps|
    requires InPlace(b, names, values, ps, n, from, limit)
    ensures forall k :: 0 <= k < n ==> ParamAt(b, names[k], values[k], ps[k])
  {
    hide ParamAt;
  }

  /** Calls the handler registered at `i` with the parameters, which it finds in the
      request's own buffer. */
  method CallCgi(p: array<char>, params: Option<nat>, names: array<nat>, values: array<Option<nat>>,
                 cgi: CgiConfig, i: nat) returns (uri: string)
    requires names.Length == MAX_CGI_PARAMS == values.Length
    requires params.Some? ==> params.value < p.Length && NUL in p[params.value..]
    modifies p, names, values
    ensures uri == cgi.handler(i,
                     match params
                     case None => []
                     case Some(at) => var t := CString(old(p[at..])); if t == "" then [] else Split(t, MAX_CGI_PARAMS))
  {
    hide Split, ParamAt, OnlyDelimitersCut, InPlace, StringFrom, CString;
    ghost var t := if params.Some? then CString(p[params.value..]) else "";
    ghost var ps := if t == "" then [] else Split(t, MAX_CGI_PARAMS);
    var count := ExtractUriParameters(p, params, names, values);
    if params.Some? {
      InPlaceAt(p[..], names[..], values[..], ps, count, params.value, params.value + |t| + 1);
      ReadBack(p[..], names[..], values[..], ps, count);
      assert ps[..count] == ps;
    }
    uri := cgi.handler(i, ReadParams(p[..], names[..], values[..], count));
  }

  /** Takes the parameters off the URI, by a NUL in place of the `?`. */
  method CutQuery(p: array<char>, ghost full: string) returns (params: Option<nat>)
    requires StringAt(p[..], URI_AT, full)
    modifies p
    ensures StringAt(p[..], URI_AT, CutAt(full, '?'))
    ensures match IndexOf(full, '?')
            case None => params == None && p[..] == old(p[..])
            case Some(q) => params == Some(URI_AT + q + 1) && StringAt(p[..], URI_AT + q + 1, full[q + 1..])
                            && p[..] == old(p[..])[URI_AT + q := NUL]
  {
    var question := StrChr(p, URI_AT, '?', full);
    params := None;
    if question.Some? {
      CutString(p[..], URI_AT, full, question.value);
      p[URI_AT + question.value] := NUL;
      assert p[..] == old(p[..])[URI_AT + question.value := NUL];
      params := Some(URI_AT + question.value + 1);
    }
  }

  /** Puts the `?` back. */
  method RestoreQuery(p: array<char>, params: Option<nat>, ghost full: string, ghost before: seq<char>)
    requires StringAt(before, URI_AT, full)
    requires match IndexOf(full, '?')
             case None => params == None && p[..] == before
             case Some(q) => params == Some(URI_AT + q + 1) && p[..] == before[URI_AT + q := NUL]
    modifies p
    ensures p[..] == before
  {
    if params.Some? {
      ghost var q := IndexOf(full, '?').value;
      assert before[URI_AT + q] == before[URI_AT..URI_AT + |full|][q] == '?';
      p[params.value - 1] := '?';
    }
  }

  lemma QueryString(b: seq<char>, at: nat, t: string)
    requires StringAt(b, at, t)
    ensures at < |b| && NUL in b[at..] && CString(b[at..]) == t
  {
    StringAtIsCString(b, at, t);
    assert b[at..][|t|] == NUL;
  }

  /** The URI of a request for a specific file. */
  method ResolveUri(p: array<char>, names: array<nat>, values: array<Option<nat>>, cgi: CgiConfig, ghost full: string)
    returns (uri: string)
    requires names.Length == MAX_CGI_PARAMS == values.Length
    requires StringAt(p[..], URI_AT, full)
    modifies p, names, values
    ensures uri == RequestedName(cgi, full) && ResolvesTo(cgi, full, uri)
  {
    hide StringAt, Split, CutAt, ResolvesTo;
    RequestedNameIs(cgi, full);
    ghost var before, base := p[..], CutAt(full, '?');
    var params := CutQuery(p, full);
    uri := ReadString(p, URI_AT, base);
    if cgi.names != [] {
      for i := 0 to |cgi.names|
        invariant FindCgi(cgi.names, base, 0) == FindCgi(cgi.names, base, i)
      {
        if uri == CString(cgi.names[i]) {
          if params.Some? {
            QueryString(p[..], params.value, full[IndexOf(full, '?').value + 1..]);
            assert p[params.value..] == p[..][params.value..];
          }
          uri := CallCgi(p, params, names, values, cgi, i);
          return;
        }
      }
      RestoreQuery(p, params, full, before);
      uri := ReadString(p, URI_AT, full);
    }
  }

  method ReadString(p: array<char>, i: nat, ghost t: string) returns (s: string)
    requires StringAt(p[..], i, t)
    ensures s == t
  {
    StringAtIsCString(p[..], i, t);
    assert p[i..] == p[..][i..];
    s := CString(p[i..]);
  }

  // ------------------------------------------------------------------ pages

  datatype Page = Page(name: string, shtml: bool)

  const DEFAULT_FILENAMES: seq<Page> := [
    Page("/index.shtml", true), Page("/index.ssi", true), Page("/index.shtm", true),
    Page("/index.html", false), Page("/index.htm", false)]

  const NOT_FOUND_PAGES: seq<Page> := [Page("/404.html", false), Page("/404.htm", false)]

  predicate StrStr(s: string, sub: string) {
    sub <= s || (s != "" && StrStr(s[1..], sub))
  }

  ghost predicate OccursAt(s: string, sub: string, i: nat) {
    i + |sub| <= |s| && s[i..i + |sub|] == sub
  }

  lemma {:induction false} StrStrIff(s: string, sub: string)
    ensures StrStr(s, sub) <==> exists i: nat :: OccursAt(s, sub, i)
  {
    if sub <= s {
      assert OccursAt(s, sub, 0);
    } else if s != "" {
      StrStrIff(s[1..], sub);
      forall i: nat | i + 1 + |sub| <= |s| ensures OccursAt(s[1..], sub, i) <==> OccursAt(s, sub, i + 1) {
        assert s[1..][i..i + |sub|] == s[i + 1..i + 1 + |sub|];
      }
      if i: nat :| OccursAt(s, sub, i) {
        assert i != 0;
        assert OccursAt(s[1..], sub, i - 1);
      }
    }
  }

  predicate IsSsiName(uri: string) {
    StrStr(uri, ".shtml") || StrStr(uri, ".shtm") || StrStr(uri, ".ssi")
  }

  /** The pages that may answer a request, in the order in which they are tried. */
  function Candidates(root: bool, name: string): seq<Page> {
    (if root then DEFAULT_FILENAMES else [Page(name, IsSsiName(name))]) + NOT_FOUND_PAGES
  }

  /** A name has an SSI extension if it contains one, wherever. */
  lemma SsiNameIff(uri: string)
    ensures IsSsiName(uri) <==> exists i: nat :: OccursAt(uri, ".shtm", i) || OccursAt(uri, ".ssi", i)
  {
    StrStrIff(uri, ".shtml");
    StrStrIff(uri, ".shtm");
    StrStrIff(uri, ".ssi");
    hide StrStr;
    if i: nat :| OccursAt(uri, ".shtml", i) {
      assert uri[i..i + 5] == uri[i..i + 6][..5] == ".shtml"[..5] == ".shtm";
      assert OccursAt(uri, ".shtm", i);
    }
  }

  /** The names to be tried for "/", and for any other URI that stands for `name`. */
  ghost function NamesTried(root: bool, name: string): seq<string> {
    if root then ["/index.shtml", "/index.ssi", "/index.shtm", "/index.html", "/index.htm", "/404.html", "/404.htm"]
    else [name, "/404.html", "/404.htm"]
  }

  /** The names that are tried, in their order, and with tags expanded exactly in those that
      have an SSI extension. */
  lemma CandidatesAreNamed(root: bool, name: string)
    ensures var names, pages := NamesTried(root, name), Candidates(root, name);
            |pages| == |names| &&
            forall i :: 0 <= i < |names| ==> pages[i].name == names[i] && (pages[i].shtml <==> IsSsiName(names[i]))
  {
    hide IsSsiName;
    HasSsi("/index.shtml", ".shtm", 6);
    HasSsi("/index.ssi", ".ssi", 6);
    HasSsi("/index.shtm", ".shtm", 6);
    HasNoSsi("/index.html", 6);
    HasNoSsi("/index.htm", 6);
    HasNoSsi("/404.html", 4);
    HasNoSsi("/404.htm", 4);
  }

  lemma HasSsi(uri: string, ext: string, i: nat)
    requires (ext == ".shtm" || ext == ".ssi") && OccursAt(uri, ext, i)
    ensures IsSsiName(uri)
  {
    hide IsSsiName;
    SsiNameIff(uri);
  }

  /** The only point in the name is followed by no `s`. */
  lemma HasNoSsi(uri: string, at: nat)
    requires at + 1 < |uri| && uri[at + 1] != 's' && forall i :: 0 <= i < |uri| && i != at ==> uri[i] != '.'
    ensures !IsSsiName(uri)
  {
    hide IsSsiName;
    SsiNameIff(uri);
    forall i: nat ensures !OccursAt(uri, ".shtm", i) && !OccursAt(uri, ".ssi", i) {
      if i + 4 <= |uri| { assert uri[i..i + 4][0] == uri[i] && uri[i..i + 4][1] == uri[i + 1]; }
      if i + 5 <= |uri| { assert uri[i..i + 5][0] == uri[i] && uri[i..i + 5][1] == uri[i + 1]; }
    }
  }

  /** The first of the pages that exists. */
  function FirstFound(files: seq<FsData>, pages: seq<Page>): (r: Option<nat>)
    ensures r.Some? ==> r.value < |pages| && Find(files, pages[r.value].name).Some?
  {
    if pages == [] then None
    else if Find(files, pages[0].name).Some? then Some(0)
    else match FirstFound(files, pages[1..]) case None => None case Some(i) => Some(i + 1)
  }

  /** No page before the first found exists, and none at all if none is found. */
  lemma {:induction false} FirstFoundIs(files: seq<FsData>, pages: seq<Page>)
    ensures match FirstFound(files, pages)
            case None => forall i :: 0 <= i < |pages| ==> IsMissing(files, pages[i].name)
            case Some(k) => k < |pages| && !IsMissing(files, pages[k].name)
                            && forall i :: 0 <= i < k ==> IsMissing(files, pages[i].name)
  {
    hide IsMissing, Find;
    if pages != [] {
      FindIs(files, pages[0].name);
      FirstFoundIs(files, pages[1..]);
    }
  }

  lemma {:induction false} FirstFoundConcat(files: seq<FsData>, a: seq<Page>, b: seq<Page>)
    ensures FirstFound(files, a + b) ==
            match FirstFound(files, a)
            case Some(i) => Some(i)
            case None => match FirstFound(files, b) case None => None case Some(i) => Some(|a| + i)
  {
    hide *;
    if a == [] {
      FirstFoundNothing(files);
      assert a + b == b;
    } else {
      FirstFoundConcat(files, a[1..], b);
      assert a == [a[0]] + a[1..];
      assert a + b == [a[0]] + (a[1..] + b);
      FirstFoundCons(files, a[0], a[1..]);
      FirstFoundCons(files, a[0], a[1..] + b);
    }
  }

  lemma FirstFoundCons(files: seq<FsData>, p: Page, rest: seq<Page>)
    ensures FirstFound(files, [p] + rest) ==
            if Find(files, p.name).Some? then Some(0)
            else match FirstFound(files, rest) case None => None case Some(i) => Some(i + 1)
  {
    hide Find;
    assert ([p] + rest)[1..] == rest;
  }

  lemma FirstFoundNothing(files: seq<FsData>)
    ensures FirstFound(files, []) == None
  {
  }

  lemma FirstFoundOne(files: seq<FsData>, p: Page)
    ensures FirstFound(files, [p]) == if Find(files, p.name).Some? then Some(0) else None
  {
    hide Find;
  }

  function OpenSlot(data: string): FsSlot {
    FsSlot(FsFile(data, |data|, |data|), true)
  }

  /** What trying pages one after the other does to the pool: the first page that
      exists takes one free slot, unless the pool is full. */
  ghost predicate OpenedFirst(files: seq<FsData>, before: seq<FsSlot>, after: seq<FsSlot>,
                              pages: seq<Page>, file: Option<nat>)
  {
    match file
    case None =>
      ((forall i :: 0 <= i < |before| ==> before[i].inuse) || FirstFound(files, pages) == None) && after == before
    case Some(slot) =>
      slot < |before| && !before[slot].inuse &&
      match FirstFound(files, pages)
      case None => false
      case Some(i) => after == before[slot := OpenSlot(Find(files, pages[i].name).value)]
  }

  lemma OpenedThen(files: seq<FsData>, before: seq<FsSlot>, after: seq<FsSlot>,
                   a: seq<Page>, b: seq<Page>, file: Option<nat>)
    requires OpenedFirst(files, before, before, a, None) && OpenedFirst(files, before, after, b, file)
    ensures OpenedFirst(files, before, after, a + b, file)
  {
    hide Find, FirstFound;
    FirstFoundConcat(files, a, b);
  }

  lemma OpenedAlready(files: seq<FsData>, before: seq<FsSlot>, after: seq<FsSlot>,
                      a: seq<Page>, b: seq<Page>, slot: nat)
    requires OpenedFirst(files, before, after, a, Some(slot))
    ensures OpenedFirst(files, before, after, a + b, Some(slot))
  {
    hide Find, FirstFound;
    FirstFoundConcat(files, a, b);
  }

  /** fs_open on one page. */
  method OpenPage(fs: FsMemory, page: Page) returns (file: Option<nat>)
    requires fs.Valid()
    modifies fs.memory
    ensures OpenedFirst(fs.root, old(fs.memory[..]), fs.memory[..], [page], file)
  {
    hide Find, FirstFound;
    FirstFoundOne(fs.root, page);
    file := fs.Open(page.name);
  }

  method Get404File(fs: FsMemory) returns (file: Option<nat>)
    requires fs.Valid()
    modifies fs.memory
    ensures OpenedFirst(fs.root, old(fs.memory[..]), fs.memory[..], NOT_FOUND_PAGES, file)
  {
    hide *;
    ghost var before := fs.memory[..];
    var first, second := Page("/404.html", false), Page("/404.htm", false);
    NotFoundPages(first, second);
    file := OpenPage(fs, first);
    if file == None {
      SlotsKept(fs.root, before, fs.memory[..], [first]);
      file := OpenPage(fs, second);
      OpenedThen(fs.root, before, fs.memory[..], [first], [second], file);
    } else {
      OpenedAlready(fs.root, before, fs.memory[..], [first], [second], file.value);
    }
  }

  lemma NotFoundPages(first: Page, second: Page)
    requires first == Page("/404.html", false) && second == Page("/404.htm", false)
    ensures [first] + [second] == NOT_FOUND_PAGES
  {
  }

  lemma SlotsKept(files: seq<FsData>, before: seq<FsSlot>, after: seq<FsSlot>, pages: seq<Page>)
    requires OpenedFirst(files, before, after, pages, None)
    ensures before == after
  {
  }

  /** Tries the default pages of "/" in their order. */
  method OpenDefault(fs: FsMemory) returns (file: Option<nat>, shtml: bool)
    requires fs.Valid()
    modifies fs.memory
    ensures OpenedFirst(fs.root, old(fs.memory[..]), fs.memory[..], DEFAULT_FILENAMES, file)
    ensures file.Some? ==> var first := FirstFound(fs.root, DEFAULT_FILENAMES);
                           first.Some? && shtml == DEFAULT_FILENAMES[first.value].shtml
  {
    hide *;
    ghost var before := fs.memory[..];
    file, shtml := None, false;
    var pages, loop := DEFAULT_FILENAMES, 0;
    NothingOpened(fs.root, before);
    while loop < |pages|
      invariant loop <= |pages| && file == None
      invariant before == fs.memory[..] && OpenedFirst(fs.root, before, before, pages[..loop], None)
    {
      file := OpenPage(fs, pages[loop]);
      assert pages[..loop + 1] == pages[..loop] + [pages[loop]];
      OpenedThen(fs.root, before, fs.memory[..], pages[..loop], [pages[loop]], file);
      if file.Some? {
        shtml := pages[loop].shtml;
        assert pages == pages[..loop + 1] + pages[loop + 1..];
        OpenedAlready(fs.root, before, fs.memory[..], pages[..loop + 1], pages[loop + 1..], file.value);
        LastIsFirstFound(fs.root, pages, loop, before, fs.memory[..], file.value);
        return;
      }
      SlotsKept(fs.root, before, fs.memory[..], pages[..loop + 1]);
      loop := loop + 1;
    }
    assert pages[..loop] == pages;
  }

  /** The file that answers a request, as a slot of the pool. */
  method OpenRequested(fs: FsMemory, p: array<char>, names: array<nat>, values: array<Option<nat>>,
                       cgi: CgiConfig, ghost uri: string) returns (file: Option<nat>, shtml: bool)
    requires fs.Valid() && names.Length == MAX_CGI_PARAMS == values.Length
    requires StringAt(p[..], URI_AT, uri)
    modifies p, names, values, fs.memory
    ensures var pages := Candidates(uri == "/", RequestedName(cgi, uri));
            OpenedFirst(fs.root, old(fs.memory[..]), fs.memory[..], pages, file) &&
            (file.Some? ==> var first := FirstFound(fs.root, pages);
                            first.Some? && shtml == pages[first.value].shtml)
  {
    hide *;
    ghost var before := fs.memory[..];
    var text := ReadString(p, URI_AT, uri);
    ghost var tried;
    if text == "/" {
      file, shtml := OpenDefault(fs);
      tried := DEFAULT_FILENAMES;
    } else {
      var name := ResolveUri(p, names, values, cgi, uri);
      assert fs.memory[..] == before;
      shtml := IsSsiName(name);
      tried := [Page(name, shtml)];
      file := OpenPage(fs, Page(name, shtml));
      SingleFound(fs.root, Page(name, shtml), before, fs.memory[..], file);
    }
    CandidatesAre(uri == "/", RequestedName(cgi, uri));
    if file == None {
      SlotsKept(fs.root, before, fs.memory[..], tried);
      file := Get404File(fs);
      shtml := false;
      OpenedThen(fs.root, before, fs.memory[..], tried, NOT_FOUND_PAGES, file);
      if file.Some? {
        NotFoundIsPlain(fs.root, tried, before, fs.memory[..], file.value);
      }
    } else {
      OpenedAlready(fs.root, before, fs.memory[..], tried, NOT_FOUND_PAGES, file.value);
      FoundAmongFirst(fs.root, tried, NOT_FOUND_PAGES);
    }
  }

  lemma CandidatesAre(root: bool, name: string)
    ensures Candidates(root, name) ==
            (if root then DEFAULT_FILENAMES else [Page(name, IsSsiName(name))]) + NOT_FOUND_PAGES
  {
  }

  lemma SingleFound(files: seq<FsData>, page: Page, before: seq<FsSlot>, after: seq<FsSlot>, file: Option<nat>)
    requires OpenedFirst(files, before, after, [page], file)
    ensures file.Some? ==> FirstFound(files, [page]) == Some(0)
  {
    hide Find;
  }

  lemma FoundAmongFirst(files: seq<FsData>, a: seq<Page>, b: seq<Page>)
    requires FirstFound(files, a).Some?
    ensures FirstFound(files, a + b) == FirstFound(files, a)
  {
    hide Find, FirstFound;
    FirstFoundConcat(files, a, b);
  }

  lemma NotFoundIsPlain(files: seq<FsData>, a: seq<Page>, before: seq<FsSlot>, after: seq<FsSlot>, slot: nat)
    requires OpenedFirst(files, before, before, a, None)
    requires OpenedFirst(files, before, after, a + NOT_FOUND_PAGES, Some(slot))
    ensures var pages := a + NOT_FOUND_PAGES;
            var first := FirstFound(files, pages);
            first.Some? && !pages[first.value].shtml
  {
    hide Find, FirstFound;
    FirstFoundConcat(files, a, NOT_FOUND_PAGES);
  }

  lemma NothingOpened(files: seq<FsData>, before: seq<FsSlot>)
    ensures OpenedFirst(files, before, before, [], None)
  {
  }

  lemma LastIsFirstFound(files: seq<FsData>, pages: seq<Page>, loop: nat,
                         before: seq<FsSlot>, after: seq<FsSlot>, slot: nat)
    requires loop < |pages| && OpenedFirst(files, before, before, pages[..loop], None)
    requires OpenedFirst(files, before, after, pages[..loop + 1], Some(slot))
    ensures FirstFound(files, pages) == Some(loop)
  {
    hide Find, FirstFound;
    assert pages[..loop + 1] == pages[..loop] + [pages[loop]];
    FirstFoundConcat(files, pages[..loop], [pages[loop]]);
    FirstFoundOne(files, pages[loop]);
    assert pages == pages[..loop + 1] + pages[loop + 1..];
    FirstFoundConcat(files, pages[..loop + 1], pages[loop + 1..]);
  }
}
