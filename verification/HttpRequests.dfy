/** The request half of HttpParser.cpp, as written, and the printer that section 5 of RFC 2616 prescribes. */
module HttpRequests {
  import opened Options
  import opened Text

  datatype Method = GET | HEAD | POST | PUT | DELETE | CONNECT | OPTIONS | TRACE | PATCH

  datatype Header = Header(key: string, value: string)

  datatype HttpProtocol = V1_0 | V1_1 | V2

  datatype Request = Request(path: string, protocol: HttpProtocol, verb: Method, headers: seq<Header>, body: string)

  /** What a call of RequestFromBuffer comes to: a request; an exception of std::string::substr; or an access to a
      deque element that is not there, which has no defined outcome. */
  datatype Outcome = Parsed(request: Request) | OutOfRange | Undefined

  function MethodText(m: Method): (t: string)
    ensures Meaning(t) == m
    ensures |t| > 0 && forall i :: 0 <= i < |t| ==> 'A' <= t[i] <= 'Z'
  {
    match m
    case GET => "GET"
    case POST => "POST"
    case HEAD => "HEAD"
    case PUT => "PUT"
    case PATCH => "PATCH"
    case DELETE => "DELETE"
    case CONNECT => "CONNECT"
    case OPTIONS => "OPTIONS"
    case TRACE => "TRACE"
  }

  /** The method a word stands for: a word that is none of the nine reads as GET. */
  function Meaning(word: string): Method {
    if word == "POST" then POST
    else if word == "HEAD" then HEAD
    else if word == "PUT" then PUT
    else if word == "PATCH" then PATCH
    else if word == "DELETE" then DELETE
    else if word == "CONNECT" then CONNECT
    else if word == "OPTIONS" then OPTIONS
    else if word == "TRACE" then TRACE
    else GET
  }

  function GetReadableProtocol(protocol: HttpProtocol): string {
    match protocol
    case V1_0 => "1.0"
    case V1_1 => "1.1"
    case V2 => "2.0"
  }

  predicate RequestHasBody(m: Method) {
    m == POST || m == PATCH || m == PUT
  }

  /** get_left_of_delim: without a delimiter substr(0, npos) is the whole line. */
  function LeftOf(line: string, delim: string): string {
    match Find(line, delim, 0)
    case None => line
    case Some(i) => line[..i]
  }

  /** get_right_of_delim: skips one character more than the delimiter.  Without a delimiter npos + size + 1 wraps
      around to the size.  None is the std::out_of_range that substr throws. */
  function RightOf(line: string, delim: string): Option<string> {
    var start := match Find(line, delim, 0) case None => |delim| case Some(i) => i + |delim| + 1;
    if start <= |line| then Some(line[start..]) else None
  }

  function ParseHeaders(lines: seq<string>): Option<seq<Header>> {
    if |lines| == 0 then Some([]) else
    var value := RightOf(lines[0], COLON);
    if value == None then None else
    var rest := ParseHeaders(lines[1..]);
    if rest == None then None else Some([Header(LeftOf(lines[0], COLON), value.value)] + rest.value)
  }

  function ParseLines(lines: seq<string>): Outcome {
    if |lines| == 0 then Undefined else
    var words := Split(lines[0], SP);
    if |words| < 2 then Undefined else
    var verb, rest := Meaning(words[0]), lines[1..];
    var bodies := if RequestHasBody(verb) then 1 else 0;
    if |rest| < bodies then Undefined else
    var headers := ParseHeaders(rest[..|rest| - bodies]);
    if headers == None then OutOfRange else
    Parsed(Request(words[1], V1_1, verb, headers.value, if bodies == 1 then rest[|rest| - 1] else ""))
  }

  /** What RequestFromBuffer returns for a buffer. */
  function Parse(buffer: string): Outcome {
    ParseLines(Split(buffer, CRLF))
  }

  // ---------------------------------------------------------------------------------------------
  // The parser object
  // ---------------------------------------------------------------------------------------------

  type Table = map<string, Method>

  const INITIAL: Table :=
    map["GET" := GET, "POST" := POST, "HEAD" := HEAD, "PUT" := PUT, "PATCH" := PATCH, "DELETE" := DELETE,
        "CONNECT" := CONNECT, "OPTIONS" := OPTIONS, "TRACE" := TRACE]

  /** unordered_map::operator[]: a missing key is added with the value 0, which is GET. */
  function LookUp(table: Table, word: string): (Method, Table) {
    if word in table then (table[word], table) else (GET, table[word := GET])
  }

  function LookUps(table: Table, words: seq<string>): Table
    decreases |words|
  {
    if |words| == 0 then table else LookUps(LookUp(table, words[0]).1, words[1..])
  }

  /** The nine methods are there, and every entry has its meaning. */
  ghost predicate TableOk(table: Table) {
    && INITIAL.Keys <= table.Keys
    && forall w :: w in table ==> table[w] == Meaning(w)
  }

  lemma InitialOk()
    ensures TableOk(INITIAL)
  {
    hide Meaning;
    forall w | w in INITIAL ensures INITIAL[w] == Meaning(w) {
      var m := INITIAL[w];
      assert w == MethodText(m);
    }
  }

  lemma LookUpOk(table: Table, word: string)
    requires TableOk(table)
    ensures TableOk(LookUp(table, word).1) && LookUp(table, word).0 == Meaning(word)
  {
    if word !in table { assert word !in INITIAL.Keys; }
  }

  /** Whatever words were looked up before, each word reads as it did in the beginning. */
  lemma {:induction false} LookUpsAreForgotten(earlier: seq<string>, word: string, table: Table)
    requires TableOk(table)
    ensures TableOk(LookUps(table, earlier))
    ensures LookUp(LookUps(table, earlier), word).0 == Meaning(word) == LookUp(table, word).0
    decreases |earlier|
  {
    LookUpOk(table, word);
    if |earlier| > 0 {
      LookUpOk(table, earlier[0]);
      LookUpsAreForgotten(earlier[1..], word, LookUp(table, earlier[0]).1);
    }
  }

  class HttpParser {
    var methodMapping: Table

    ghost predicate Valid()
      reads this
    {
      TableOk(methodMapping)
    }

    constructor ()
      ensures Valid() && methodMapping == INITIAL
    {
      methodMapping := INITIAL;
      new;
      InitialOk();
    }

    /** Lines 52-90.  The result depends on the buffer alone; the table grows by each word that it has not met. */
    method RequestFromBuffer(buffer: string) returns (r: Outcome)
      requires Valid()
      modifies this
      ensures Valid()
      ensures r == Parse(buffer)
      ensures var lines := Split(buffer, CRLF);
              methodMapping.Keys == old(methodMapping).Keys +
                if |lines| > 0 && |Split(lines[0], SP)| > 0 then {Split(lines[0], SP)[0]} else {}
      ensures forall w :: w in old(methodMapping) ==> methodMapping[w] == old(methodMapping)[w]
    {
      hide Split;
      var lines := SplitLoop(buffer, CRLF);
      if |lines| == 0 { return Undefined; }
      var startLineSplit := SplitLoop(lines[0], SP);
      if |startLineSplit| == 0 { return Undefined; }
      var (httpMethod, table) := LookUp(methodMapping, startLineSplit[0]);
      LookUpOk(methodMapping, startLineSplit[0]);
      methodMapping := table;
      if |startLineSplit| < 2 { return Undefined; }
      lines := lines[1..];
      var bodies := if RequestHasBody(httpMethod) then 1 else 0;
      if |lines| < bodies { return Undefined; }
      var totalHeaders := |lines| - bodies;
      var headers := HeaderLoop(lines, totalHeaders);
      if headers == None { return OutOfRange; }
      var headerCount := |headers.value|;
      ghost var all := lines;
      ParsedCount(all[..totalHeaders]);
      for i := 0 to headerCount
        invariant lines == all[i..]
      {
        lines := lines[1..];
      }
      var body := if |lines| == 0 then "" else lines[0];
      r := Parsed(Request(startLineSplit[1], V1_1, httpMethod, headers.value, body));
    }

    /** Lines 76-82. */
    static method HeaderLoop(lines: seq<string>, total: nat) returns (r: Option<seq<Header>>)
      requires total <= |lines|
      ensures r == ParseHeaders(lines[..total])
    {
      var headers: seq<Header> := [];
      ghost var mine := lines[..total];
      ghost var whole := ParseHeaders(mine);
      assert mine[0..] == mine;
      if whole.Some? { assert [] + whole.value == whole.value; }
      for idx := 0 to total
        invariant whole == Prefixed(headers, ParseHeaders(mine[idx..]))
      {
        var key := LeftOf(lines[idx], COLON);
        var value := RightOf(lines[idx], COLON);
        HeaderTurn(mine, idx, headers);
        if value == None { return None; }
        headers := headers + [Header(key, value.value)];
      }
      assert mine[total..] == [] && headers + [] == headers;
      r := Some(headers);
    }
  }

  ghost function Prefixed(headers: seq<Header>, rest: Option<seq<Header>>): Option<seq<Header>> {
    if rest == None then None else Some(headers + rest.value)
  }

  lemma HeaderTurn(lines: seq<string>, idx: nat, headers: seq<Header>)
    requires idx < |lines|
    ensures var value, here := RightOf(lines[idx], COLON), Prefixed(headers, ParseHeaders(lines[idx..]));
            if value == None then here == None
            else
              var header := Header(LeftOf(lines[idx], COLON), value.value);
              here == Prefixed(headers + [header], ParseHeaders(lines[idx + 1..]))
  {
    var rest := lines[idx..];
    assert rest[0] == lines[idx] && rest[1..] == lines[idx + 1..];
    var tail := ParseHeaders(rest[1..]);
    if RightOf(lines[idx], COLON).Some? && tail.Some? {
      Regroup(headers, [Header(LeftOf(lines[idx], COLON), RightOf(lines[idx], COLON).value)], tail.value);
    }
  }

  lemma {:induction false} ParsedCount(lines: seq<string>)
    ensures ParseHeaders(lines).Some? ==> |ParseHeaders(lines).value| == |lines|
  {
    if |lines| > 0 { ParsedCount(lines[1..]); }
  }

  /** A word that is none of the nine reads as GET, and only such a word is not the text of what it reads as. */
  lemma UnknownWordsReadAsGet(word: string)
    ensures MethodText(Meaning(word)) == word <==> word in INITIAL
    ensures word !in INITIAL ==> Meaning(word) == GET
  {
  }

  // ---------------------------------------------------------------------------------------------
  // The printer, and the round trip
  // ---------------------------------------------------------------------------------------------

  function VersionText(r: Request): string {
    "HTTP/" + GetReadableProtocol(r.protocol)
  }

  /** Request-Line = Method SP Request-URI SP HTTP-Version (section 5.1). */
  function StartLine(r: Request): string {
    MethodText(r.verb) + SP + r.path + SP + VersionText(r)
  }

  /** message-header = field-name ":" field-value (section 4.2), with the customary space. */
  function HeaderLine(h: Header): string {
    h.key + COLON + SP + h.value
  }

  function PrintHeaders(hs: seq<Header>): string {
    if |hs| == 0 then "" else HeaderLine(hs[0]) + CRLF + PrintHeaders(hs[1..])
  }

  /** Request = Request-Line *( message-header CRLF ) CRLF [ message-body ] (section 5). */
  function Print(r: Request): string {
    StartLine(r) + CRLF + (PrintHeaders(r.headers) + CRLF + r.body)
  }

  ghost predicate HeaderOk(h: Header) {
    !Contains(h.key, COLON) && !Contains(h.key, CRLF) && !Contains(h.value, CRLF)
  }

  /** What the parser can return: a nonempty path of one word, version 1.1, headers of one line each, a body of one
      nonempty line exactly where the method has one. */
  ghost predicate WellFormed(r: Request) {
    && Clean(r.path, SP) && !Contains(r.path, CRLF) && r.protocol == V1_1
    && (forall h :: h in r.headers ==> HeaderOk(h))
    && if r.verb in {POST, PUT, PATCH} then Clean(r.body, CRLF) else r.body == ""
  }

  /** Two texts without a line break have none together, unless one ends in CR and the other begins with LF. */
  lemma NoBreak(a: string, b: string)
    requires !Contains(a, CRLF) && !Contains(b, CRLF)
    requires |a| == 0 || |b| == 0 || a[|a| - 1] != '\r' || b[0] != '\n'
    ensures !Contains(a + b, CRLF)
  {
    var s := a + b;
    assert |CRLF| == 2 && CRLF[0] == '\r' && CRLF[1] == '\n';
    forall i: nat | i <= |s| ensures !MatchAt(s, CRLF, i) {
      if i + 2 <= |a| {
        MatchInside(a, b, CRLF, i);
      } else if |a| <= i && i + 2 <= |s| {
        MatchRight(a, b, CRLF, i - |a|, i);
      } else if i + 2 <= |s| {
        assert s[i..i + 2][0] == a[|a| - 1] && s[i..i + 2][1] == b[0];
      }
    }
  }

  lemma StartLineSplits(r: Request)
    requires WellFormed(r)
    ensures Clean(StartLine(r), CRLF)
    ensures Split(StartLine(r), SP) == [MethodText(r.verb), r.path, VersionText(r)]
  {
    hide Split;
    Delimiters();
    var m, version := MethodText(r.verb), VersionText(r);
    NoChar(m, SP, ' ');
    NoChar(version, SP, ' ');
    var words := [m, r.path, version];
    SplitJoin(words, SP);
    assert Join([version], SP) == version;
    assert [r.path, version][1..] == [version];
    assert Join([r.path, version], SP) == r.path + SP + version;
    assert words[1..] == [r.path, version];
    assert Join(words, SP) == m + SP + (r.path + SP + version);
    assert StartLine(r) == m + SP + (r.path + SP + version);
    NoChar(m + SP, CRLF, '\r');
    NoChar(SP + version, CRLF, '\r');
    NoBreak(r.path, SP + version);
    NoBreak(m + SP, r.path + (SP + version));
    assert StartLine(r) == m + SP + (r.path + (SP + version));
  }

  lemma HeaderLineParses(h: Header)
    requires HeaderOk(h)
    ensures Clean(HeaderLine(h), CRLF)
    ensures LeftOf(HeaderLine(h), COLON) == h.key && RightOf(HeaderLine(h), COLON) == Some(h.value)
  {
    Delimiters();
    var line := HeaderLine(h);
    assert line == h.key + COLON + (SP + h.value);
    FindAfter(h.key, COLON, SP + h.value);
    assert line[..|h.key|] == h.key && line[|h.key| + 2..] == h.value;
    NoChar(COLON + SP, CRLF, '\r');
    NoBreak(COLON + SP, h.value);
    NoBreak(h.key, COLON + SP + h.value);
    assert line == h.key + (COLON + SP + h.value);
  }

  function HeaderLines(hs: seq<Header>): seq<string> {
    if |hs| == 0 then [] else [HeaderLine(hs[0])] + HeaderLines(hs[1..])
  }

  lemma {:induction false} PrintedHeadersSplit(hs: seq<Header>, rest: string)
    requires forall h :: h in hs ==> HeaderOk(h)
    ensures Split(PrintHeaders(hs) + rest, CRLF) == HeaderLines(hs) + Split(rest, CRLF)
  {
    hide Split;
    if |hs| == 0 {
      assert "" + rest == rest;
    } else {
      var line, tail := HeaderLine(hs[0]), PrintHeaders(hs[1..]);
      Delimiters();
      HeaderLineParses(hs[0]);
      assert line + CRLF + tail + rest == line + CRLF + (tail + rest);
      SplitCat(line, CRLF, tail + rest);
      SplitFree(line, CRLF);
      PrintedHeadersSplit(hs[1..], rest);
      Regroup([line], HeaderLines(hs[1..]), Split(rest, CRLF));
    }
  }

  lemma {:induction false} HeaderLinesParse(hs: seq<Header>)
    requires forall h :: h in hs ==> HeaderOk(h)
    ensures |HeaderLines(hs)| == |hs| && ParseHeaders(HeaderLines(hs)) == Some(hs)
  {
    if |hs| > 0 {
      HeaderLineParses(hs[0]);
      HeaderLinesParse(hs[1..]);
      assert HeaderLines(hs)[1..] == HeaderLines(hs[1..]);
      assert hs == [hs[0]] + hs[1..];
    }
  }

  lemma PrintedLines(r: Request)
    requires WellFormed(r)
    ensures Split(Print(r), CRLF) == [StartLine(r)] + (HeaderLines(r.headers) + Piece(r.body))
  {
    hide Split;
    Delimiters();
    var head, rest := StartLine(r), PrintHeaders(r.headers) + CRLF + r.body;
    StartLineSplits(r);
    SplitCat(head, CRLF, rest);
    SplitFree(head, CRLF);
    assert rest == PrintHeaders(r.headers) + ("" + CRLF + r.body);
    PrintedHeadersSplit(r.headers, "" + CRLF + r.body);
    SplitCat("", CRLF, r.body);
    NoChar("", CRLF, '\r');
    SplitFree("", CRLF);
    if |r.body| == 0 { assert r.body == ""; }
    SplitFree(r.body, CRLF);
    assert [] + Piece(r.body) == Piece(r.body);
  }

  /** Parsing what was printed gives the request back. */
  lemma PrintedRequestParses(r: Request)
    requires WellFormed(r)
    ensures Parse(Print(r)) == Parsed(r)
  {
    hide Split;
    PrintedLines(r);
    StartLineSplits(r);
    HeaderLinesParse(r.headers);
    var lines := HeaderLines(r.headers) + Piece(r.body);
    assert Split(Print(r), CRLF)[1..] == lines;
    if RequestHasBody(r.verb) {
      assert lines[..|lines| - 1] == HeaderLines(r.headers);
    } else {
      assert lines == HeaderLines(r.headers) && lines[..|lines|] == lines;
    }
  }

  /** A piece of a text contains only what the text contains. */
  lemma PartOf(s: string, i: nat, j: nat, d: string)
    requires i <= j <= |s| && |d| > 0 && !Contains(s, d)
    ensures !Contains(s[i..j], d)
  {
    var t := s[i..j];
    forall k: nat | k <= |t| ensures !MatchAt(t, d, k) {
      if k + |d| <= |t| {
        MatchRight(s[..i], t + s[j..], d, k, i + k);
        MatchInside(t, s[j..], d, k);
        assert s == s[..i] + (t + s[j..]);
      }
    }
  }

  lemma {:induction false} PiecesOf(s: string, d: string, e: string, prev: nat, k: nat)
    requires |d| > 0 && |e| > 0 && prev <= |s| && k < |SplitFrom(s, d, prev)| && !Contains(s, e)
    ensures !Contains(SplitFrom(s, d, prev)[k], e)
    decreases |s| - prev
  {
    match Find(s, d, prev)
    case None =>
      PartOf(s, prev, |s|, e);
      assert s[prev..|s|] == s[prev..];
    case Some(i) =>
      PartOf(s, prev, i, e);
      if k >= |Piece(s[prev..i])| { PiecesOf(s, d, e, i + |d|, k - |Piece(s[prev..i])|); }
  }

  /** What stands left of the first delimiter has none. */
  lemma LeftIsFree(line: string, delim: string)
    requires |delim| > 0
    ensures !Contains(LeftOf(line, delim), delim)
  {
    FindNone(line, delim);
    FindIsFirst(line, delim, 0);
    var left := LeftOf(line, delim);
    if Find(line, delim, 0).Some? {
      var rest := line[|left|..];
      assert line == left + rest;
      forall k: nat | k <= |left| ensures !MatchAt(left, delim, k) {
        if k + |delim| <= |left| { MatchInside(left, rest, delim, k); }
      }
    }
  }

  lemma ParsedHeaderOk(line: string)
    requires !Contains(line, CRLF) && RightOf(line, COLON).Some?
    ensures HeaderOk(Header(LeftOf(line, COLON), RightOf(line, COLON).value))
  {
    hide Find;
    hide MatchAt;
    var key, value := LeftOf(line, COLON), RightOf(line, COLON).value;
    LeftIsFree(line, COLON);
    PartOf(line, 0, |key|, CRLF);
    assert line[0..|key|] == key;
    PartOf(line, |line| - |value|, |line|, CRLF);
    assert line[|line| - |value|..|line|] == value;
  }

  lemma {:induction false} ParsedHeadersOk(lines: seq<string>)
    requires forall l :: l in lines ==> !Contains(l, CRLF)
    requires ParseHeaders(lines).Some?
    ensures forall h :: h in ParseHeaders(lines).value ==> HeaderOk(h)
  {
    if |lines| > 0 {
      ParsedHeaderOk(lines[0]);
      ParsedHeadersOk(lines[1..]);
    }
  }

  /** Whatever the buffer, a request that the parser returns is well-formed. */
  lemma ParsedIsWellFormed(buffer: string)
    requires Parse(buffer).Parsed?
    ensures WellFormed(Parse(buffer).request)
  {
    hide Split;
    var lines := Split(buffer, CRLF);
    forall l | l in lines ensures Clean(l, CRLF) {
      var k: nat :| k < |lines| && lines[k] == l;
      SplitClean(buffer, CRLF, k);
    }
    assert lines[0] in lines;
    SplitClean(lines[0], SP, 1);
    PathHasNoBreak(lines[0]);
    var rest := lines[1..];
    var bodies := if RequestHasBody(Parse(buffer).request.verb) then 1 else 0;
    var heads := rest[..|rest| - bodies];
    forall l | l in heads ensures !Contains(l, CRLF) {
      assert l in rest && l in lines;
      assert Clean(l, CRLF);
    }
    ParsedHeadersOk(heads);
  }

  lemma PathHasNoBreak(line: string)
    requires !Contains(line, CRLF) && |Split(line, SP)| >= 2
    ensures !Contains(Split(line, SP)[1], CRLF)
  {
    PiecesOf(line, SP, CRLF, 0, 1);
  }

  /** The round trip holds for exactly the well-formed requests. */
  lemma RoundTripExact(r: Request)
    ensures Parse(Print(r)) == Parsed(r) <==> WellFormed(r)
  {
    if WellFormed(r) {
      PrintedRequestParses(r);
    } else if Parse(Print(r)).Parsed? {
      ParsedIsWellFormed(Print(r));
    }
  }

  /** What a line reads as: with a colon, the key before the first one, then one character that is dropped, then the
      value; without a colon the whole line is the key, and all but its first character the value. */
  lemma HeaderReads(line: string)
    requires |line| > 0
    ensures var key, value := LeftOf(line, COLON), RightOf(line, COLON);
            if !Contains(line, COLON) then key == line && value == Some(line[1..])
            else !Contains(key, COLON) &&
                 if value == None then line == key + COLON
                 else exists dropped: char :: line == key + COLON + [dropped] + value.value
  {
    FindNone(line, COLON);
    LeftIsFree(line, COLON);
    FindIsFirst(line, COLON, 0);
    if Contains(line, COLON) {
      var key := LeftOf(line, COLON);
      assert line == line[..|key|] + line[|key|..|key| + 1] + line[|key| + 1..];
      if RightOf(line, COLON).Some? {
        var dropped := line[|key| + 1];
        assert line[|key| + 1..] == [dropped] + line[|key| + 2..];
        Regroup(key + COLON, [dropped], line[|key| + 2..]);
        assert line == key + COLON + [dropped] + RightOf(line, COLON).value;
      }
    }
  }

  /** Section 4.2 allows any amount of white space before a value.  The value is read back exactly when one
      character, whichever, stands there. */
  lemma SeparatorExact(key: string, space: string, value: string)
    requires !Contains(key, COLON)
    ensures RightOf(key + COLON + (space + value), COLON) == Some(value) <==> |space| == 1
  {
    Delimiters();
    var line := key + COLON + (space + value);
    FindAfter(key, COLON, space + value);
    if |space| + |value| > 0 {
      assert line[|key| + 2..] == (space + value)[1..];
      if |space| == 1 { assert (space + value)[1..] == value; }
    }
  }

  /** A header line with nothing behind its first colon. */
  predicate EndsAtColon(line: string) {
    |line| > 0 && line[|line| - 1] == ':' && forall i :: 0 <= i < |line| - 1 ==> line[i] != ':'
  }

  lemma RightThrowsExactly(line: string)
    requires |line| > 0
    ensures RightOf(line, COLON) == None <==> EndsAtColon(line)
  {
    FindIsFirst(line, COLON, 0);
    forall i: nat | i < |line| ensures MatchAt(line, COLON, i) <==> line[i] == ':' {
      assert line[i..i + 1] == [line[i]];
    }
  }

  /** The header loop throws exactly when some line ends at its first colon. */
  lemma {:induction false} HeadersThrowExactly(lines: seq<string>)
    requires forall l :: l in lines ==> |l| > 0
    ensures ParseHeaders(lines) == None <==> exists l :: l in lines && EndsAtColon(l)
  {
    if |lines| > 0 {
      RightThrowsExactly(lines[0]);
      HeadersThrowExactly(lines[1..]);
      assert forall l :: l in lines <==> l == lines[0] || l in lines[1..];
    }
  }

  // ---------------------------------------------------------------------------------------------
  // Where it goes wrong
  // ---------------------------------------------------------------------------------------------

  /** The lines that are read as headers: those behind the first, without the last for a method with a body. */
  function HeaderPart(buffer: string): seq<string>
    requires !Faults(buffer)
  {
    var lines := Split(buffer, CRLF);
    if Split(lines[0], SP)[0] in {"POST", "PUT", "PATCH"} then lines[1..|lines| - 1] else lines[1..]
  }

  /** No line that is not blank; a first line with fewer than two words; or a method with a body and no further line. */
  predicate Faults(buffer: string) {
    var lines := Split(buffer, CRLF);
    || |lines| == 0
    || |Split(lines[0], SP)| < 2
    || (|lines| == 1 && Split(lines[0], SP)[0] in {"POST", "PUT", "PATCH"})
  }

  /** A body is read for exactly three of the nine words, and for none that is not one of them. */
  lemma WordsWithBody(word: string)
    ensures RequestHasBody(Meaning(word)) <==> word in {"POST", "PUT", "PATCH"}
  {
  }

  /** A deque element that is not there is accessed for exactly these buffers. */
  lemma FaultsExactly(buffer: string)
    ensures Parse(buffer) == Undefined <==> Faults(buffer)
  {
    hide Split;
    hide RequestHasBody;
    hide Meaning;
    var lines := Split(buffer, CRLF);
    if |lines| > 0 && |Split(lines[0], SP)| >= 2 { WordsWithBody(Split(lines[0], SP)[0]); }
  }

  /** std::out_of_range is thrown exactly when some header line ends at its first colon. */
  lemma ThrowsExactly(buffer: string)
    ensures Parse(buffer) == OutOfRange <==>
              !Faults(buffer) && exists l :: l in HeaderPart(buffer) && EndsAtColon(l)
  {
    hide Split;
    if !Faults(buffer) {
      var lines, heads := Split(buffer, CRLF), HeaderPart(buffer);
      forall l | l in heads ensures |l| > 0 {
        var k: nat :| k < |lines| && lines[k] == l;
        SplitClean(buffer, CRLF, k);
      }
      HeadersThrowExactly(heads);
      var rest := lines[1..];
      WordsWithBody(Split(lines[0], SP)[0]);
      assert heads == if RequestHasBody(Meaning(Split(lines[0], SP)[0])) then rest[..|rest| - 1] else rest[..|rest|];
    }
  }

  /** Every other buffer yields a request. */
  lemma ParsesExactly(buffer: string)
    ensures Parse(buffer).Parsed? <==> !Faults(buffer) && forall l :: l in HeaderPart(buffer) ==> !EndsAtColon(l)
  {
    FaultsExactly(buffer);
    ThrowsExactly(buffer);
  }

  /** A line stands for a header: the key before its first colon, one character that is dropped, and the value. */
  ghost predicate StandsFor(line: string, h: Header) {
    if Contains(line, COLON)
    then !Contains(h.key, COLON) && exists dropped: char :: line == h.key + COLON + [dropped] + h.value
    else |line| > 0 && line == h.key && h.value == line[1..]
  }

  lemma {:induction false} HeadersStand(lines: seq<string>, i: nat)
    requires ParseHeaders(lines).Some? && i < |lines| && forall l :: l in lines ==> |l| > 0
    ensures |ParseHeaders(lines).value| == |lines| && StandsFor(lines[i], ParseHeaders(lines).value[i])
    decreases |lines|
  {
    ParsedCount(lines);
    HeaderReads(lines[0]);
    if i > 0 { HeadersStand(lines[1..], i - 1); }
  }

  /** Every part of a request that a buffer yields: the first two words of the first line, whatever else is on it, also
      for the version; the lines behind it in order, as headers; and the last line for the three words with a body. */
  lemma ParsedReads(buffer: string)
    requires Parse(buffer).Parsed?
    ensures var r, lines := Parse(buffer).request, Split(buffer, CRLF);
            && |lines| > 0 && |Split(lines[0], SP)| >= 2
            && var word, body := Split(lines[0], SP)[0], Split(lines[0], SP)[0] in {"POST", "PUT", "PATCH"};
            && r.path == Split(lines[0], SP)[1] && r.protocol == V1_1
            && (if word in INITIAL then MethodText(r.verb) == word else r.verb == GET)
            && |lines| == 1 + |r.headers| + (if body then 1 else 0)
            && (forall i: nat :: i < |r.headers| ==> StandsFor(lines[i + 1], r.headers[i]))
            && r.body == if body then lines[|lines| - 1] else ""
  {
    hide Split;
    hide RequestHasBody;
    hide Meaning;
    hide StandsFor;
    var r, lines := Parse(buffer).request, Split(buffer, CRLF);
    var word := Split(lines[0], SP)[0];
    WordsWithBody(word);
    UnknownWordsReadAsGet(word);
    var rest := lines[1..];
    var heads := rest[..|rest| - if RequestHasBody(Meaning(word)) then 1 else 0];
    ParsedCount(heads);
    forall l | l in heads ensures |l| > 0 {
      var k: nat :| k < |lines| && lines[k] == l;
      SplitClean(buffer, CRLF, k);
    }
    forall i: nat | i < |r.headers| ensures StandsFor(lines[i + 1], r.headers[i]) {
      HeadersStand(heads, i);
      assert heads[i] == lines[i + 1];
    }
  }

  /** A request line of one word. */
  lemma OneWordFaults()
    ensures Parse("GET") == Undefined
  {
    Delimiters();
    NoChar("GET", CRLF, '\r');
    NoChar("GET", SP, ' ');
    SplitFree("GET", CRLF);
    SplitFree("GET", SP);
  }

  /** Lines without a break, each ended by one, and a blank line. */
  lemma {:induction false} LinesSplit(lines: seq<string>)
    requires forall k: nat :: k < |lines| ==> Clean(lines[k], CRLF)
    ensures Split(Ended(lines) + CRLF, CRLF) == lines
  {
    hide Split;
    Delimiters();
    if |lines| == 0 {
      NoChar("", CRLF, '\r');
      SplitFree("", CRLF);
      SplitCat("", CRLF, "");
      assert Ended(lines) + CRLF == "" + CRLF + "";
    } else {
      var rest := Ended(lines[1..]) + CRLF;
      SplitFree(lines[0], CRLF);
      SplitCat(lines[0], CRLF, rest);
      Regroup(lines[0] + CRLF, Ended(lines[1..]), CRLF);
      LinesSplit(lines[1..]);
      assert lines == [lines[0]] + lines[1..];
    }
  }

  function Ended(lines: seq<string>): string {
    if |lines| == 0 then "" else lines[0] + CRLF + Ended(lines[1..])
  }

  /** A POST whose body is missing. */
  lemma MissingBodyFaults()
    ensures Parse("POST / HTTP/1.1" + CRLF + CRLF) == Undefined
  {
    hide Split;
    var r := Request("/", V1_1, POST, [], "b");
    var line := "POST / HTTP/1.1";
    NoChar("/", SP, ' ');
    NoChar("/", CRLF, '\r');
    NoChar("b", CRLF, '\r');
    StartLineSplits(r);
    assert StartLine(r) == line;
    LinesSplit([line]);
    assert Ended([line]) == line + CRLF;
  }

  /** A header line that ends at its colon. */
  lemma EmptyValueThrows()
    ensures Parse("GET / HTTP/1.1" + CRLF + "Host:" + CRLF + CRLF) == OutOfRange
  {
    hide Split;
    var r := Request("/", V1_1, GET, [], "");
    var line, header := "GET / HTTP/1.1", "Host:";
    NoChar("/", SP, ' ');
    NoChar("/", CRLF, '\r');
    StartLineSplits(r);
    assert StartLine(r) == line;
    NoChar(header, CRLF, '\r');
    var buffer := line + CRLF + header + CRLF + CRLF;
    assert Split(buffer, CRLF) == [line, header] by { TwoLines(line, header); }
    assert HeaderPart(buffer) == [header] && EndsAtColon(header);
    hide HeaderPart;
    ThrowsExactly(buffer);
  }

  lemma TwoLines(a: string, b: string)
    requires Clean(a, CRLF) && Clean(b, CRLF)
    ensures Split(a + CRLF + b + CRLF + CRLF, CRLF) == [a, b]
  {
    hide Split;
    LinesSplit([a, b]);
    assert [a, b][1..] == [b] && Ended([b]) == b + CRLF;
    assert Ended([a, b]) + CRLF == a + CRLF + b + CRLF + CRLF;
  }

  /** Every parsed request survives being printed and parsed again. */
  lemma ParsedRequestsAreStable(buffer: string)
    requires Parse(buffer).Parsed?
    ensures Parse(Print(Parse(buffer).request)) == Parse(buffer)
  {
    ParsedIsWellFormed(buffer);
    PrintedRequestParses(Parse(buffer).request);
  }

  /** Extra blank lines anywhere between lines never change a parse. */
  lemma BlankLinesIgnored(a: string, b: string)
    ensures Parse(a + CRLF + CRLF + b) == Parse(a + CRLF + b)
  {
    Delimiters();
    BlankIgnored(a, CRLF, b);
  }
}
