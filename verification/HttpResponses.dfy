/** The response half of HttpParser.cpp, as written, and the reader that section 4.4 of RFC 2616 prescribes. */
module HttpResponses {
  import opened Options
  import opened Text
  import opened HttpRequests

  /** A status code is a number of 16 bits.  The headers are those that AddHeader was called with. */
  datatype HttpResponse = HttpResponse(protocol: HttpProtocol, code: nat, headers: seq<Header>, body: string)

  function GetReadableStatusCode(code: nat): string {
    if code == 200 then "200 OK" else if code == 500 then "500 InternalServerError" else "404 NotFound"
  }

  // ---------------------------------------------------------------------------------------------
  // Decimal numbers
  // ---------------------------------------------------------------------------------------------

  function Digit(n: nat): char
    requires n < 10
  {
    '0' + n as char
  }

  /** operator<< of a stream for a size. */
  function Decimal(n: nat): string {
    if n < 10 then [Digit(n)] else Decimal(n / 10) + [Digit(n % 10)]
  }

  /** The number that a text of digits stands for. */
  function Value(t: string): Option<nat> {
    if |t| == 0 then None else
    var c := t[|t| - 1];
    if !('0' <= c <= '9') then None else
    var d := c as int - '0' as int;
    if |t| == 1 then Some(d) else
    var front := Value(t[..|t| - 1]);
    if front == None then None else Some(10 * front.value + d)
  }

  lemma {:induction false} ValueOfDecimal(n: nat)
    ensures Value(Decimal(n)) == Some(n)
    ensures |Decimal(n)| > 0 && forall i :: 0 <= i < |Decimal(n)| ==> '0' <= Decimal(n)[i] <= '9'
  {
    if n >= 10 {
      ValueOfDecimal(n / 10);
      var t := Decimal(n);
      assert t[..|t| - 1] == Decimal(n / 10);
    }
  }

  lemma {:induction false} DigitsGrow(m: nat, n: nat)
    requires m <= n
    ensures |Decimal(m)| <= |Decimal(n)|
  {
    if m >= 10 { DigitsGrow(m / 10, n / 10); }
  }

  // ---------------------------------------------------------------------------------------------
  // The printer
  // ---------------------------------------------------------------------------------------------

  const DATE: string := "Date: " + "Mon, 16 Sep 2019 09:10:10 GMT"
  const SERVER: string := "Server: " + "cpp-webserver-eventdriven-1.0"
  const CONNECTION: string := "Connection: " + "Keep-Alive"
  const TYPE: string := "Content-Type: " + "application/json"
  const LENGTH: string := "Content-Length: "
  const VERSION: string := "HTTP/"

  function StatusLine(r: HttpResponse): string {
    VERSION + GetReadableProtocol(r.protocol) + SP + GetReadableStatusCode(r.code)
  }

  function LengthLine(r: HttpResponse): string {
    LENGTH + Decimal(|r.body|)
  }

  function HeadLines(r: HttpResponse): seq<string> {
    [StatusLine(r), DATE, SERVER, CONNECTION, TYPE, LengthLine(r)]
  }

  const BLANK: string := CRLF + CRLF

  function ResponseText(r: HttpResponse): string {
    Join(HeadLines(r), CRLF) + BLANK + r.body
  }

  class Buffer {
    var Data: array<char>
    var Size: nat

    constructor (text: string)
      ensures fresh(Data) && Data[..] == text && Size == |text| % 0x1_0000
    {
      var data := new char[|text|](i requires 0 <= i < |text| => text[i]);
      Data := data;
      Size := |text| % 0x1_0000;
      new;
      assert Data[..] == text;
    }

    /** What IChannel::Write passes to send: the first Size bytes. */
    ghost function Sent(): string
      reads this, Data
      requires Size <= Data.Length
    {
      Data[..Size]
    }
  }

  /** Lines 127-160: the stream in the order in which it is written, then the copy and the 16-bit size. */
  method BufferFromResponse(response: HttpResponse) returns (buffer: Buffer)
    ensures fresh(buffer) && fresh(buffer.Data)
    ensures buffer.Data[..] == ResponseText(response)
    ensures buffer.Size == |ResponseText(response)| % 0x1_0000 && buffer.Sent() == Wire(response)
  {
    hide Join;
    var ss := "";
    ss := ss + ("HTTP/" + GetReadableProtocol(response.protocol) + " " + GetReadableStatusCode(response.code) + "\r\n");
    ghost var lines := [StatusLine(response)];
    FirstLine(ss, response);
    AddLine(ss, lines, DATE);
    ss, lines := ss + DATE + "\r\n", lines + [DATE];
    AddLine(ss, lines, SERVER);
    ss, lines := ss + SERVER + "\r\n", lines + [SERVER];
    AddLine(ss, lines, CONNECTION);
    ss, lines := ss + CONNECTION + "\r\n", lines + [CONNECTION];
    AddLine(ss, lines, TYPE);
    ss, lines := ss + TYPE + "\r\n", lines + [TYPE];
    AddLine(ss, lines, LengthLine(response));
    ss, lines := ss + ("Content-Length: " + Decimal(|response.body|)) + "\r\n", lines + [LengthLine(response)];
    assert lines == HeadLines(response);
    AddBody(ss, lines, response.body);
    ss := ss + "\r\n" + response.body;
    buffer := new Buffer(ss);
  }

  lemma FirstLine(ss: string, r: HttpResponse)
    requires ss == "" + ("HTTP/" + GetReadableProtocol(r.protocol) + " " + GetReadableStatusCode(r.code) + "\r\n")
    ensures ss == Join([StatusLine(r)], CRLF) + CRLF
  {
  }

  lemma AddLine(ss: string, lines: seq<string>, line: string)
    requires |lines| > 0 && ss == Join(lines, CRLF) + CRLF
    ensures ss + line + CRLF == Join(lines + [line], CRLF) + CRLF
  {
    JoinSnoc(lines, CRLF, line);
  }

  lemma AddBody(ss: string, lines: seq<string>, body: string)
    requires ss == Join(lines, CRLF) + CRLF
    ensures ss + CRLF + body == Join(lines, CRLF) + BLANK + body
  {
    Regroup(Join(lines, CRLF), CRLF, CRLF);
  }

  /** What goes out for a response: the size has 16 bits, so a longer text is cut. */
  function Wire(r: HttpResponse): string {
    ResponseText(r)[..|ResponseText(r)| % 0x1_0000]
  }

  // ---------------------------------------------------------------------------------------------
  // The reader
  // ---------------------------------------------------------------------------------------------

  /** What a client sees of a response. */
  datatype View = View(protocol: string, status: string, body: string)

  function ViewOf(r: HttpResponse): View {
    View(GetReadableProtocol(r.protocol), GetReadableStatusCode(r.code), r.body)
  }

  /** Status-Line = HTTP-Version SP Status-Code SP Reason-Phrase (section 6.1). */
  function ReadStatusLine(line: string): Option<(string, string)> {
    if !(VERSION <= line) then None else
    var rest := line[|VERSION|..];
    match Find(rest, SP, 0)
    case None => None
    case Some(i) => Some((rest[..i], rest[i + 1..]))
  }

  function ContentLength(lines: seq<string>): Option<nat> {
    if |lines| == 0 then None
    else if LENGTH <= lines[0] then Value(lines[0][|LENGTH|..])
    else ContentLength(lines[1..])
  }

  /** One response from the front of a stream: the head ends at the first blank line, the body has as many bytes as
      Content-Length says (section 4.4).  None when the stream does not start with a whole response. */
  function ReadOne(stream: string): (r: Option<(View, string)>)
    ensures r.Some? ==> |r.value.1| < |stream|
  {
    match Find(stream, BLANK, 0)
    case None => None
    case Some(i) =>
      var lines := Split(stream[..i], CRLF);
      var length := ContentLength(lines);
      if |lines| == 0 || length == None || i + 4 + length.value > |stream| then None else
      var status := ReadStatusLine(lines[0]);
      if status == None then None else
      var end := i + 4 + length.value;
      Some((View(status.value.0, status.value.1, stream[i + 4..end]), stream[end..]))
  }

  /** All responses of a stream; None when it ends in the middle of one. */
  function ReadAll(stream: string): Option<seq<View>>
    decreases |stream|
  {
    if |stream| == 0 then Some([]) else
    var one := ReadOne(stream);
    if one == None then None else
    var rest := ReadAll(one.value.1);
    if rest == None then None else Some([one.value.0] + rest.value)
  }

  // ---------------------------------------------------------------------------------------------
  // Reading undoes printing
  // ---------------------------------------------------------------------------------------------

  /** The first blank line behind nonempty lines is the one that ends them, whatever follows. */
  lemma {:induction false} HeadEnds(lines: seq<string>, rest: string)
    requires |lines| > 0 && forall k: nat :: k < |lines| ==> Clean(lines[k], CRLF)
    ensures Find(Join(lines, CRLF) + BLANK + rest, BLANK, 0) == Some(|Join(lines, CRLF)|)
  {
    hide Find;
    hide Contains;
    var line := lines[0];
    if |lines| == 1 {
      var s := line + CRLF + (CRLF + rest);
      assert s == line + BLANK + rest;
      LastLine(line, rest);
    } else {
      var tail := Join(lines[1..], CRLF) + BLANK + rest;
      assert Join(lines, CRLF) + BLANK + rest == line + CRLF + tail;
      HeadEnds(lines[1..], rest);
      FirstBreak(lines[1..], rest);
      NextLine(line, tail, |Join(lines[1..], CRLF)|);
    }
  }

  /** A nonempty line does not begin with a line break. */
  lemma NoBreakFirst(line: string, more: string)
    requires Clean(line, CRLF)
    ensures !MatchAt(line + CRLF + more, CRLF, 0)
  {
    hide Find;
    Delimiters();
    FindAfter(line, CRLF, more);
    FindIsFirst(line + CRLF + more, CRLF, 0);
  }

  lemma FirstBreak(lines: seq<string>, rest: string)
    requires |lines| > 0 && Clean(lines[0], CRLF)
    ensures !MatchAt(Join(lines, CRLF) + BLANK + rest, CRLF, 0)
  {
    hide MatchAt;
    hide Contains;
    var line := lines[0];
    if |lines| == 1 {
      Regroup(line, CRLF, CRLF);
      Regroup(line + CRLF, CRLF, rest);
      NoBreakFirst(line, CRLF + rest);
    } else {
      var tail := Join(lines[1..], CRLF);
      Regroup(line + CRLF, tail, BLANK);
      Regroup(line + CRLF, tail + BLANK, rest);
      NoBreakFirst(line, tail + BLANK + rest);
    }
  }

  /** A blank line is a line break and another one behind it. */
  lemma BlankIsTwoBreaks(s: string, k: nat)
    ensures MatchAt(s, BLANK, k) <==> MatchAt(s, CRLF, k) && MatchAt(s, CRLF, k + 2)
  {
    assert BLANK[..2] == CRLF && BLANK[2..] == CRLF;
    if k + 4 <= |s| {
      var m := s[k..k + 4];
      assert m[..2] == s[k..k + 2] && m[2..] == s[k + 2..k + 2 + 2];
      assert m == m[..2] + m[2..];
    }
  }

  lemma LastLine(line: string, rest: string)
    requires Clean(line, CRLF)
    ensures Find(line + BLANK + rest, BLANK, 0) == Some(|line|)
  {
    Delimiters();
    var s := line + CRLF + (CRLF + rest);
    assert line + BLANK + rest == s;
    FindAfter(line, CRLF, CRLF + rest);
    FindIsFirst(s, CRLF, 0);
    assert s[|line|..|line| + 4] == BLANK;
    forall k: nat | k < |line| ensures !MatchAt(s, BLANK, k) { BlankIsTwoBreaks(s, k); }
    FindsAt(s, BLANK, 0, |line|);
  }

  /** No blank line begins inside a line or its line break, when the next line does not begin with a break. */
  lemma NotWithin(line: string, tail: string, k: nat)
    requires Clean(line, CRLF) && !MatchAt(tail, CRLF, 0) && k < |line| + 2
    ensures !MatchAt(line + CRLF + tail, BLANK, k)
  {
    hide Find;
    Delimiters();
    var s := line + CRLF + tail;
    BlankIsTwoBreaks(s, k);
    FindAfter(line, CRLF, tail);
    FindIsFirst(s, CRLF, 0);
    if k == |line| {
      MatchStart(line + CRLF, tail);
    } else if |line| < k {
      assert s[k] == CRLF[1];
      if MatchAt(s, CRLF, k) { assert s[k..k + 2][0] == CRLF[0]; }
    }
  }

  lemma NextLine(line: string, tail: string, j: nat)
    requires Clean(line, CRLF) && !MatchAt(tail, CRLF, 0) && Find(tail, BLANK, 0) == Some(j)
    ensures Find(line + CRLF + tail, BLANK, 0) == Some(|line| + 2 + j)
  {
    hide Find;
    hide Contains;
    var front := line + CRLF;
    var s := front + tail;
    FindIsFirst(tail, BLANK, 0);
    MatchRight(front, tail, BLANK, j, |front| + j);
    forall k: nat | k < |front| + j ensures !MatchAt(s, BLANK, k) {
      if k < |front| {
        NotWithin(line, tail, k);
      } else {
        assert !MatchAt(tail, BLANK, k - |front|);
        MatchRight(front, tail, BLANK, k - |front|, k);
      }
    }
    FindsAt(s, BLANK, 0, |front| + j);
  }

  lemma MatchStart(front: string, tail: string)
    requires !MatchAt(tail, CRLF, 0)
    ensures !MatchAt(front + tail, CRLF, |front|)
  {
    if 2 <= |tail| { MatchRight(front, tail, CRLF, 0, |front|); }
  }

  lemma FixedLinesClean()
    ensures Clean(DATE, CRLF) && Clean(SERVER, CRLF) && Clean(CONNECTION, CRLF) && Clean(TYPE, CRLF)
  {
    NoChar(DATE, CRLF, '\r');
    NoChar(SERVER, CRLF, '\r');
    NoChar(CONNECTION, CRLF, '\r');
    NoChar(TYPE, CRLF, '\r');
  }

  lemma HeadLinesClean(r: HttpResponse, k: nat)
    requires k < 6
    ensures Clean(HeadLines(r)[k], CRLF)
  {
    FixedLinesClean();
    if k == 0 {
      NoChar(StatusLine(r), CRLF, '\r');
    } else if k == 5 {
      ValueOfDecimal(|r.body|);
      NoChar(LengthLine(r), CRLF, '\r');
    }
  }

  lemma StatusLineReads(r: HttpResponse)
    ensures ReadStatusLine(StatusLine(r)) == Some((GetReadableProtocol(r.protocol), GetReadableStatusCode(r.code)))
  {
    Delimiters();
    var p, c := GetReadableProtocol(r.protocol), GetReadableStatusCode(r.code);
    var rest := StatusLine(r)[|VERSION|..];
    assert rest == p + SP + c;
    NoChar(p, SP, ' ');
    FindAfter(p, SP, c);
    assert rest[..|p|] == p && rest[|p| + 1..] == c;
  }

  lemma LengthReads(r: HttpResponse)
    ensures ContentLength(HeadLines(r)) == Some(|r.body|)
  {
    ValueOfDecimal(|r.body|);
    var l := LengthLine(r);
    assert l[|LENGTH|..] == Decimal(|r.body|);
    LengthOfLast(l);
    OtherLine(TYPE, [l], 8);
    OtherLine(CONNECTION, [TYPE, l], 3);
    OtherLine(SERVER, [CONNECTION, TYPE, l], 0);
    OtherLine(DATE, [SERVER, CONNECTION, TYPE, l], 0);
    OtherLine(StatusLine(r), [DATE, SERVER, CONNECTION, TYPE, l], 0);
  }

  lemma LengthOfLast(l: string)
    requires LENGTH <= l
    ensures ContentLength([l]) == Value(l[|LENGTH|..])
  {
  }

  /** A line that differs from the field name at some position is passed over. */
  lemma OtherLine(line: string, lines: seq<string>, i: nat)
    requires i < |LENGTH| && i < |line| && line[i] != LENGTH[i]
    ensures ContentLength([line] + lines) == ContentLength(lines)
  {
    assert ([line] + lines)[1..] == lines;
  }

  /** A printed response is read back, whatever its body and whatever follows it. */
  lemma ResponseReads(r: HttpResponse, rest: string)
    ensures ReadOne(ResponseText(r) + rest) == Some((ViewOf(r), rest))
  {
    hide Find;
    hide Split;
    hide ContentLength;
    hide ReadStatusLine;
    Delimiters();
    var lines := HeadLines(r);
    forall k: nat | k < |lines| ensures Clean(lines[k], CRLF) { HeadLinesClean(r, k); }
    var head := Join(lines, CRLF);
    var stream := head + BLANK + (r.body + rest);
    assert ResponseText(r) + rest == stream;
    HeadEnds(lines, r.body + rest);
    SplitJoin(lines, CRLF);
    assert stream[..|head|] == head;
    LengthReads(r);
    StatusLineReads(r);
    assert stream[|head| + 4..|head| + 4 + |r.body|] == r.body;
    assert stream[|head| + 4 + |r.body|..] == rest;
  }

  function Texts(rs: seq<HttpResponse>): string {
    if |rs| == 0 then "" else ResponseText(rs[0]) + Texts(rs[1..])
  }

  function Wires(rs: seq<HttpResponse>): string {
    if |rs| == 0 then "" else Wire(rs[0]) + Wires(rs[1..])
  }

  function Views(rs: seq<HttpResponse>): seq<View> {
    if |rs| == 0 then [] else [ViewOf(rs[0])] + Views(rs[1..])
  }

  /** The concatenated texts of any responses are decoded into exactly those responses. */
  lemma {:induction false} TextsRead(rs: seq<HttpResponse>)
    ensures ReadAll(Texts(rs)) == Some(Views(rs))
  {
    hide ReadOne;
    hide ResponseText;
    if |rs| > 0 {
      ResponseReads(rs[0], Texts(rs[1..]));
      TextsRead(rs[1..]);
    }
  }

  /** The size is that of the text. */
  predicate Fits(r: HttpResponse) {
    |ResponseText(r)| < 0x1_0000
  }

  lemma WireExact(r: HttpResponse)
    ensures |Wire(r)| <= |ResponseText(r)|
    ensures Wire(r) == ResponseText(r) <==> Fits(r)
  {
  }

  /** What is sent is the concatenation of the texts exactly when every size fits. */
  lemma {:induction false} WiresExact(rs: seq<HttpResponse>)
    ensures |Wires(rs)| <= |Texts(rs)|
    ensures Wires(rs) == Texts(rs) <==> forall r :: r in rs ==> Fits(r)
  {
    hide Wire;
    hide ResponseText;
    if |rs| > 0 {
      WireExact(rs[0]);
      WiresExact(rs[1..]);
      if Wires(rs) == Texts(rs) {
        WiresAgree(Wire(rs[0]), Wires(rs[1..]), ResponseText(rs[0]), Texts(rs[1..]));
        forall r | r in rs ensures Fits(r) { assert r == rs[0] || r in rs[1..]; }
      }
    }
  }

  /** Parts that are no longer than others and have the same concatenation are the same. */
  lemma WiresAgree(a: string, b: string, c: string, d: string)
    requires |a| <= |c| && |b| <= |d| && a + b == c + d
    ensures a == c && b == d
  {
    assert (a + b)[..|a|] == a && (c + d)[..|c|] == c;
    assert (a + b)[|a|..] == b && (c + d)[|c|..] == d;
  }

  /** Pipelining: responses that fit are decoded from the connection into exactly those responses, in order. */
  lemma PipelineReads(rs: seq<HttpResponse>)
    requires forall r :: r in rs ==> Fits(r)
    ensures ReadAll(Wires(rs)) == Some(Views(rs))
  {
    WiresExact(rs);
    TextsRead(rs);
  }

  /** What reads as one response and nothing behind it has no proper prefix that reads as one. */
  lemma PrefixOfOne(text: string, v: View, n: nat)
    requires n < |text| && ReadOne(text) == Some((v, ""))
    ensures ReadOne(text[..n]) == None
  {
    hide Find;
    hide Split;
    hide ContentLength;
    hide ReadStatusLine;
    var part, tail := text[..n], text[n..];
    assert part + tail == text;
    if Find(part, BLANK, 0).Some? {
      FindBefore(part, tail, BLANK);
      var i := Find(part, BLANK, 0).value;
      assert Find(text, BLANK, 0) == Some(i) && part[..i] == text[..i];
      var end := i + 4 + ContentLength(Split(text[..i], CRLF)).value;
      assert text[end..] == "" && end == |text|;
    }
  }

  /** A piece of a response that is not all of it is not a response. */
  lemma PrefixDoesNotRead(r: HttpResponse, n: nat)
    requires n < |ResponseText(r)|
    ensures ReadOne(ResponseText(r)[..n]) == None
  {
    hide ResponseText;
    hide ReadOne;
    var text := ResponseText(r);
    ResponseReads(r, "");
    assert text + "" == text;
    PrefixOfOne(text, ViewOf(r), n);
  }

  /** One response is decoded from what is sent exactly when it fits. */
  lemma ResponseReadsExactly(r: HttpResponse)
    ensures ReadAll(Wire(r)) == Some([ViewOf(r)]) <==> Fits(r)
  {
    hide ReadOne;
    hide ResponseText;
    if Fits(r) {
      ResponseReads(r, "");
      assert ResponseText(r) + "" == ResponseText(r) == Wire(r);
      assert ReadAll("") == Some([]) && [ViewOf(r)] + [] == [ViewOf(r)];
    } else {
      PrefixDoesNotRead(r, |ResponseText(r)| % 0x1_0000);
    }
  }

  // ---------------------------------------------------------------------------------------------
  // Sizes
  // ---------------------------------------------------------------------------------------------

  /** The largest body whose response fits. */
  function LargestBody(code: nat): nat {
    if code == 200 then 65361 else if code == 500 then 65344 else 65355
  }

  lemma JoinStep(line: string, lines: seq<string>)
    requires |lines| > 0
    ensures |Join([line] + lines, CRLF)| == |line| + 2 + |Join(lines, CRLF)|
  {
    assert ([line] + lines)[1..] == lines;
  }

  lemma JoinedLength(r: HttpResponse)
    ensures |Join(HeadLines(r), CRLF)|
            == |StatusLine(r)| + |DATE| + |SERVER| + |CONNECTION| + |TYPE| + |LengthLine(r)| + 10
  {
    hide StatusLine;
    hide LengthLine;
    var l := LengthLine(r);
    JoinStep(TYPE, [l]);
    JoinStep(CONNECTION, [TYPE, l]);
    JoinStep(SERVER, [CONNECTION, TYPE, l]);
    JoinStep(DATE, [SERVER, CONNECTION, TYPE, l]);
    JoinStep(StatusLine(r), [DATE, SERVER, CONNECTION, TYPE, l]);
    assert HeadLines(r) == [StatusLine(r)] + [DATE, SERVER, CONNECTION, TYPE, l];
  }

  lemma TextLength(r: HttpResponse)
    ensures |ResponseText(r)| == 65530 - LargestBody(r.code) + |Decimal(|r.body|)| + |r.body|
  {
    hide Join;
    JoinedLength(r);
    assert |StatusLine(r)| == 9 + |GetReadableStatusCode(r.code)|;
    assert |LengthLine(r)| == 16 + |Decimal(|r.body|)|;
  }

  /** The 16-bit size is exact for exactly the bodies up to a length that depends on the status alone. */
  lemma SizeExact(r: HttpResponse)
    ensures Fits(r) <==> |r.body| <= LargestBody(r.code)
  {
    TextLength(r);
    var n := |r.body|;
    FiveDigits();
    if n <= LargestBody(r.code) {
      DigitsGrow(n, 99999);
    } else {
      DigitsGrow(10000, n);
    }
  }

  /** A body one byte too long: its response is cut, and no client reads it. */
  lemma OneByteTooMany(protocol: HttpProtocol, code: nat) returns (r: HttpResponse)
    ensures r.protocol == protocol && r.code == code && |r.body| == LargestBody(code) + 1
    ensures |Wire(r)| < |ResponseText(r)| && ReadAll(Wire(r)) != Some([ViewOf(r)])
  {
    r := HttpResponse(protocol, code, [], seq(LargestBody(code) + 1, _ => 'x'));
    SizeExact(r);
    ResponseReadsExactly(r);
    hide ResponseText;
    hide ReadAll;
  }

  lemma FiveDigits()
    ensures |Decimal(10000)| == 5 == |Decimal(99999)|
  {
    assert |Decimal(10)| == 2 && |Decimal(99)| == 2;
    assert |Decimal(100)| == 3 && |Decimal(999)| == 3;
    assert |Decimal(1000)| == 4 && |Decimal(9999)| == 4;
  }

  lemma TextsOfCodes()
    ensures Value("200") == Some(200) && Value("404") == Some(404) && Value("500") == Some(500)
  {
    ValueOfDecimal(200);
    ValueOfDecimal(404);
    ValueOfDecimal(500);
    assert Decimal(200) == "200" && Decimal(404) == "404" && Decimal(500) == "500";
  }

  /** The status that a client reads is the code that was set only for the three codes that have a text. */
  lemma StatusCodeSurvives(r: HttpResponse)
    ensures Value(ViewOf(r).status[..3]) == Some(r.code) <==> r.code in {200, 404, 500}
    ensures Value(ViewOf(r).status[..3]) == Some(if r.code in {200, 500} then r.code else 404)
    ensures ViewOf(r).status[3..]
            == if r.code == 200 then " OK" else if r.code == 500 then " InternalServerError" else " NotFound"
  {
    hide Value;
    TextsOfCodes();
    var status := ViewOf(r).status;
    assert r.code == 200 ==> status[..3] == "200" && status[3..] == " OK";
    assert r.code == 500 ==> status[..3] == "500" && status[3..] == " InternalServerError";
    assert r.code !in {200, 500} ==> status[..3] == "404" && status[3..] == " NotFound";
  }

  /** The numbers before and after the dot (section 3.1). */
  function Version(t: string): Option<(nat, nat)> {
    match Find(t, ".", 0)
    case None => None
    case Some(i) =>
      var major, minor := Value(t[..i]), Value(t[i + 1..]);
      if major == None || minor == None then None else Some((major.value, minor.value))
  }

  lemma VersionOf(major: nat, minor: nat)
    ensures Version(Decimal(major) + "." + Decimal(minor)) == Some((major, minor))
  {
    hide Find;
    var a, b := Decimal(major), Decimal(minor);
    ValueOfDecimal(major);
    ValueOfDecimal(minor);
    Dot();
    NoChar(a, ".", '.');
    FindAfter(a, ".", b);
    var t := a + "." + b;
    assert t[..|a|] == a && t[|a| + 1..] == b;
  }

  lemma Dot()
    ensures BorderFree(".")
  {
  }

  lemma BeginsWithVersion(r: HttpResponse)
    requires Fits(r)
    ensures "HTTP/" <= Wire(r)
  {
    hide LengthLine;
    var head := Join(HeadLines(r), CRLF);
    assert StatusLine(r) <= head && "HTTP/" <= StatusLine(r);
    assert head <= ResponseText(r) == Wire(r);
  }

  /** What a client reads off what is sent for a response that fits: the version that was set, in numbers. */
  lemma VersionSurvives(r: HttpResponse)
    requires Fits(r)
    ensures "HTTP/" <= Wire(r)
    ensures ReadAll(Wire(r)).Some? && |ReadAll(Wire(r)).value| == 1
    ensures var version := Version(ReadAll(Wire(r)).value[0].protocol);
            && (version == Some((1, 0)) <==> r.protocol == V1_0)
            && (version == Some((1, 1)) <==> r.protocol == V1_1)
            && (version == Some((2, 0)) <==> r.protocol == V2)
  {
    hide ReadAll;
    hide Wire;
    hide Version;
    hide Join;
    ResponseReadsExactly(r);
    BeginsWithVersion(r);
    VersionOf(1, 0);
    VersionOf(1, 1);
    VersionOf(2, 0);
    assert Decimal(1) + "." + Decimal(0) == "1.0";
    assert Decimal(1) + "." + Decimal(1) == "1.1";
    assert Decimal(2) + "." + Decimal(0) == "2.0";
  }

  /** A response that takes its version from the request it answers is read as version 1.1, whatever version the
      client had sent. */
  lemma RepliesAreOneOne(buffer: string, r: HttpResponse)
    requires Parse(buffer).Parsed? && r.protocol == Parse(buffer).request.protocol && Fits(r)
    ensures ReadAll(Wire(r)).Some? && |ReadAll(Wire(r)).value| == 1
    ensures Version(ReadAll(Wire(r)).value[0].protocol) == Some((1, 1))
  {
    hide ReadAll;
    hide Wire;
    hide Version;
    hide Parse;
    ParsedReads(buffer);
    VersionSurvives(r);
  }

  /** The header fields at the front of a stream. */
  function FieldsOf(stream: string): Option<seq<Header>> {
    match Find(stream, BLANK, 0)
    case None => None
    case Some(i) =>
      var lines := Split(stream[..i], CRLF);
      if |lines| == 0 then None else ParseHeaders(lines[1..])
  }

  /** The fields that every response has, whatever headers were added to it. */
  function SentFields(length: nat): seq<Header> {
    [Header("Date", "Mon, 16 Sep 2019 09:10:10 GMT"), Header("Server", "cpp-webserver-eventdriven-1.0"),
     Header("Connection", "Keep-Alive"), Header("Content-Type", "application/json"),
     Header("Content-Length", Decimal(length))]
  }

  lemma FieldOk(h: Header)
    requires forall i :: 0 <= i < |h.key| ==> h.key[i] != ':' && h.key[i] != '\r'
    requires forall i :: 0 <= i < |h.value| ==> h.value[i] != '\r'
    ensures HeaderOk(h)
  {
    NoChar(h.key, COLON, ':');
    NoChar(h.key, CRLF, '\r');
    NoChar(h.value, CRLF, '\r');
  }

  lemma DateField()
    ensures HeaderLine(Header("Date", "Mon, 16 Sep 2019 09:10:10 GMT")) == DATE
  {
  }

  lemma ServerField()
    ensures HeaderLine(Header("Server", "cpp-webserver-eventdriven-1.0")) == SERVER
  {
  }

  lemma ConnectionField()
    ensures HeaderLine(Header("Connection", "Keep-Alive")) == CONNECTION
  {
  }

  lemma TypeField()
    ensures HeaderLine(Header("Content-Type", "application/json")) == TYPE
  {
  }

  lemma FieldLines(r: HttpResponse)
    ensures HeadLines(r)[1..] == HeaderLines(SentFields(|r.body|))
  {
    var hs := SentFields(|r.body|);
    DateField();
    ServerField();
    ConnectionField();
    TypeField();
    assert HeaderLine(hs[4]) == LengthLine(r);
    hide HeaderLine;
    hide LengthLine;
    assert hs[4..][1..] == [] && hs[3..][1..] == hs[4..] && hs[2..][1..] == hs[3..] && hs[1..][1..] == hs[2..];
    assert HeaderLines(hs[4..]) == [LengthLine(r)];
    assert HeaderLines(hs[3..]) == [TYPE] + HeaderLines(hs[4..]);
    assert HeaderLines(hs[2..]) == [CONNECTION] + HeaderLines(hs[3..]);
    assert HeaderLines(hs[1..]) == [SERVER] + HeaderLines(hs[2..]);
  }

  /** A client reads exactly these fields, in this order. */
  lemma FieldsRead(r: HttpResponse, rest: string)
    ensures FieldsOf(ResponseText(r) + rest) == Some(SentFields(|r.body|))
  {
    hide Find;
    hide Split;
    hide ParseHeaders;
    hide StatusLine;
    hide LengthLine;
    Delimiters();
    var lines := HeadLines(r);
    forall k: nat | k < |lines| ensures Clean(lines[k], CRLF) { HeadLinesClean(r, k); }
    var head := Join(lines, CRLF);
    var stream := head + BLANK + (r.body + rest);
    assert ResponseText(r) + rest == stream;
    HeadEnds(lines, r.body + rest);
    SplitJoin(lines, CRLF);
    assert stream[..|head|] == head;
    FieldLines(r);
    SentFieldsOk(|r.body|);
    HeaderLinesParse(SentFields(|r.body|));
  }

  lemma SentFieldsOk(length: nat)
    ensures forall h :: h in SentFields(length) ==> HeaderOk(h)
  {
    ValueOfDecimal(length);
    hide HeaderOk;
    var hs := SentFields(length);
    FieldOk(hs[0]);
    FieldOk(hs[1]);
    FieldOk(hs[2]);
    FieldOk(hs[3]);
    FieldOk(hs[4]);
  }

  /** Of the responses with such codes a client can tell any two apart, unless they differ in their headers alone:
      those are not sent. */
  lemma ViewDetermines(a: HttpResponse, b: HttpResponse)
    requires a.code in {200, 404, 500} && b.code in {200, 404, 500}
    ensures ViewOf(a) == ViewOf(b) <==> a.(headers := b.headers) == b
    ensures Wire(a) == Wire(a.(headers := b.headers))
  {
    StatusCodeSurvives(a);
    StatusCodeSurvives(b);
    var p, q := GetReadableProtocol(a.protocol), GetReadableProtocol(b.protocol);
    assert p == q ==> p[0] == q[0] && p[2] == q[2];
  }
}
