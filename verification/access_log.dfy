/** The access-log line recogniser of procsql.py, written out as a hand
    parser. The source's pattern is anchored at the start of the line and
    matched as a prefix: three space-separated non-blank words (host,
    identity, user), a bracketed timestamp holding no closing bracket, a
    quoted request of three space-separated non-blank words (method, url,
    protocol), then the status code and the byte count as digit runs
    (Apache's Common Log Format up to the byte count).

    Every group except the protocol is a longest run, since the character
    that follows it in the pattern cannot belong to the run; the protocol
    group is the longest non-whitespace run minus its last character, which
    must be the closing quote. Text after the byte count is not examined. */
module AccessLog {
  import opened Wrappers
  import opened Text

  datatype LogRequest = LogRequest(
    host: string,
    ident: string,
    authUser: string,
    timestamp: string,
    verb: string,
    url: string,
    protocol: string,
    status: string,
    bytes: string)

  /** A matched group and the text after it */
  datatype Cut = Cut(token: string, rest: string)

  predicate NotCloseBracket(c: char) {
    c != ']'
  }

  /** The longest non-empty prefix of s whose characters satisfy p */
  function Run(s: string, p: char -> bool): (r: Option<Cut>)
    ensures r.Some? <==> |s| > 0 && p(s[0])
    ensures r.Some? ==> && |r.value.token| > 0
                        && AllSatisfy(r.value.token, p)
                        && s == r.value.token + r.value.rest
                        && (|r.value.rest| == 0 || !p(r.value.rest[0]))
  {
    if |s| == 0 || !p(s[0]) then None
    else
      var more := Run(s[1..], p);
      assert s == [s[0]] + s[1..];
      if more.None? then
        Some(Cut([s[0]], s[1..]))
      else
        var c := more.value;
        AllSatisfyConcat([s[0]], c.token, p);
        assert s == ([s[0]] + c.token) + c.rest;
        Some(Cut([s[0]] + c.token, c.rest))
  }

  /** A literal character */
  function Lit(s: string, c: char): (r: Option<string>)
    ensures r.Some? <==> |s| > 0 && s[0] == c
    ensures r.Some? ==> s == [c] + r.value
  {
    if |s| > 0 && s[0] == c then Some(s[1..]) else None
  }

  /** `(\S+) ` */
  function WordThenSpace(s: string): (r: Option<Cut>)
    ensures r.Some? ==> IsWord(r.value.token) && s == r.value.token + ([' '] + r.value.rest)
  {
    var w :- Run(s, NotSpace);
    var rest :- Lit(w.rest, ' ');
    Some(Cut(w.token, rest))
  }

  /** `(\S+)"` */
  function Protocol(s: string): (r: Option<Cut>)
    ensures r.Some? ==> && IsWord(r.value.token)
                        && s == r.value.token + (['"'] + r.value.rest)
                        && (|r.value.rest| == 0 || IsSpace(r.value.rest[0]))
  {
    var w :- Run(s, NotSpace);
    var n := |w.token|;
    if n >= 2 && w.token[n - 1] == '"' then
      assert w.token == w.token[..n - 1] + ['"'];
      AllSatisfyPrefix(w.token, n - 1, NotSpace);
      Some(Cut(w.token[..n - 1], w.rest))
    else None
  }

  /** `(\S+) (\S+) (\S+) `: host, ident and authenticated user */
  function ClientPart(s: string): Option<(string, string, string, string)> {
    var host :- WordThenSpace(s);
    var ident :- WordThenSpace(host.rest);
    var user :- WordThenSpace(ident.rest);
    Some((host.token, ident.token, user.token, user.rest))
  }

  /** `\[([^\]]+)\] "`: the timestamp */
  function TimePart(s: string): Option<Cut> {
    var s1 :- Lit(s, '[');
    var ts :- Run(s1, NotCloseBracket);
    var s2 :- Lit(ts.rest, ']');
    var s3 :- Lit(s2, ' ');
    var s4 :- Lit(s3, '"');
    Some(Cut(ts.token, s4))
  }

  /** `(\S+) (\S+) (\S+)" `: request method, url and protocol */
  function RequestPart(s: string): Option<(string, string, string, string)> {
    var verb :- WordThenSpace(s);
    var url :- WordThenSpace(verb.rest);
    var proto :- Protocol(url.rest);
    var rest :- Lit(proto.rest, ' ');
    Some((verb.token, url.token, proto.token, rest))
  }

  /** `(\d+) (\d+)`: status code and byte count */
  function StatusPart(s: string): Option<(string, string, string)> {
    var status :- Run(s, IsDigit);
    var s1 :- Lit(status.rest, ' ');
    var bytes :- Run(s1, IsDigit);
    Some((status.token, bytes.token, bytes.rest))
  }

  /** Matches one log line; None when the pattern does not match its start */
  function ParseLogLine(line: string): (r: Option<LogRequest>)
  {
    var (host, ident, user, s1) :- ClientPart(line);
    var ts :- TimePart(s1);
    var (verb, url, proto, s2) :- RequestPart(ts.rest);
    var (status, bytes, _) :- StatusPart(s2);
    Some(LogRequest(host, ident, user, ts.token, verb, url, proto, status, bytes))
  }

  /** The fields a matching line can produce */
  predicate WellFormed(r: LogRequest) {
    && IsWord(r.host) && IsWord(r.ident) && IsWord(r.authUser)
    && |r.timestamp| > 0 && AllSatisfy(r.timestamp, NotCloseBracket)
    && IsWord(r.verb) && IsWord(r.url) && IsWord(r.protocol)
    && IsNumeral(r.status) && IsNumeral(r.bytes)
  }

  function ClientText(host: string, ident: string, user: string, t: string): string {
    host + (" " + (ident + (" " + (user + (" " + t)))))
  }

  function TimeText(ts: string, t: string): string {
    "[" + (ts + ("] \"" + t))
  }

  function RequestText(verb: string, url: string, proto: string, t: string): string {
    verb + (" " + (url + (" " + (proto + ("\" " + t)))))
  }

  function StatusText(status: string, bytes: string, t: string): string {
    status + (" " + (bytes + t))
  }

  /** The log line `host ident user [timestamp] "verb url protocol" status bytes`
      followed by `tail` */
  function RenderWith(r: LogRequest, tail: string): string {
    ClientText(r.host, r.ident, r.authUser,
      TimeText(r.timestamp,
        RequestText(r.verb, r.url, r.protocol,
          StatusText(r.status, r.bytes, tail))))
  }

  function Render(r: LogRequest): string {
    RenderWith(r, "")
  }

  lemma RenderWithIsConcat(r: LogRequest, tail: string)
    ensures RenderWith(r, tail) == Render(r) + tail
  {
  }

  /** What may follow the byte count: anything but another digit */
  predicate EndsNumber(tail: string) {
    |tail| == 0 || !IsDigit(tail[0])
  }

  lemma {:induction false} RunOf(a: string, b: string, p: char -> bool)
    requires |a| > 0 && AllSatisfy(a, p)
    requires |b| == 0 || !p(b[0])
    ensures Run(a + b, p) == Some(Cut(a, b))
    decreases |a|
  {
    assert (a + b)[0] == a[0];
    assert (a + b)[1..] == a[1..] + b;
    if |a| == 1 {
      assert a[1..] + b == b;
    } else {
      assert forall i :: 0 <= i < |a| - 1 ==> a[1..][i] == a[i + 1];
      RunOf(a[1..], b, p);
      assert [a[0]] + a[1..] == a;
    }
  }

  lemma LitOf(c: char, t: string)
    ensures Lit([c] + t, c) == Some(t)
  {
    assert ([c] + t)[1..] == t;
  }

  lemma WordThenSpaceOf(w: string, t: string)
    requires IsWord(w)
    ensures WordThenSpace(w + (" " + t)) == Some(Cut(w, t))
  {
    RunOf(w, " " + t, NotSpace);
    LitOf(' ', t);
  }

  lemma ProtocolOf(w: string, t: string)
    requires IsWord(w)
    ensures Protocol(w + ("\" " + t)) == Some(Cut(w, " " + t))
  {
    var tok := w + ['"'];
    assert AllSatisfy(tok, NotSpace) by {
      forall i | 0 <= i < |tok| ensures NotSpace(tok[i]) {
        if i < |w| {
          assert tok[i] == w[i];
        }
      }
    }
    assert w + ("\" " + t) == tok + (" " + t);
    RunOf(tok, " " + t, NotSpace);
    assert tok[..|tok| - 1] == w;
  }

  lemma ClientPartOf(host: string, ident: string, user: string, t: string)
    requires IsWord(host) && IsWord(ident) && IsWord(user)
    ensures ClientPart(ClientText(host, ident, user, t)) == Some((host, ident, user, t))
  {
    WordThenSpaceOf(host, ident + (" " + (user + (" " + t))));
    WordThenSpaceOf(ident, user + (" " + t));
    WordThenSpaceOf(user, t);
  }

  lemma ClientPartSound(s: string)
    requires ClientPart(s).Some?
    ensures var (host, ident, user, t) := ClientPart(s).value;
      IsWord(host) && IsWord(ident) && IsWord(user) && s == ClientText(host, ident, user, t)
  {
  }

  lemma TimePartOf(ts: string, t: string)
    requires |ts| > 0 && AllSatisfy(ts, NotCloseBracket)
    ensures TimePart(TimeText(ts, t)) == Some(Cut(ts, t))
  {
    var after := "] \"" + t;
    LitOf('[', ts + after);
    RunOf(ts, after, NotCloseBracket);
    assert after == [']'] + ([' '] + (['"'] + t));
    LitOf(']', [' '] + (['"'] + t));
    LitOf(' ', ['"'] + t);
    LitOf('"', t);
  }

  lemma TimePartSound(s: string)
    requires TimePart(s).Some?
    ensures var c := TimePart(s).value;
      |c.token| > 0 && AllSatisfy(c.token, NotCloseBracket) && s == TimeText(c.token, c.rest)
  {
    var s1 := Lit(s, '[').value;
    var ts := Run(s1, NotCloseBracket).value;
    var s2 := Lit(ts.rest, ']').value;
    var s3 := Lit(s2, ' ').value;
    var s4 := Lit(s3, '"').value;
    assert TimePart(s).value == Cut(ts.token, s4);
    assert "] \"" + s4 == [']'] + ([' '] + (['"'] + s4));
  }

  lemma RequestPartOf(verb: string, url: string, proto: string, t: string)
    requires IsWord(verb) && IsWord(url) && IsWord(proto)
    ensures RequestPart(RequestText(verb, url, proto, t)) == Some((verb, url, proto, t))
  {
    WordThenSpaceOf(verb, url + (" " + (proto + ("\" " + t))));
    WordThenSpaceOf(url, proto + ("\" " + t));
    ProtocolOf(proto, t);
    LitOf(' ', t);
  }

  lemma RequestPartSound(s: string)
    requires RequestPart(s).Some?
    ensures var (verb, url, proto, t) := RequestPart(s).value;
      IsWord(verb) && IsWord(url) && IsWord(proto) && s == RequestText(verb, url, proto, t)
  {
    var verb := WordThenSpace(s).value;
    var url := WordThenSpace(verb.rest).value;
    var proto := Protocol(url.rest).value;
    var rest := Lit(proto.rest, ' ').value;
    assert RequestPart(s).value == (verb.token, url.token, proto.token, rest);
    assert "\" " + rest == ['"'] + ([' '] + rest);
  }

  lemma StatusPartOf(status: string, bytes: string, t: string)
    requires IsNumeral(status) && IsNumeral(bytes) && EndsNumber(t)
    ensures StatusPart(StatusText(status, bytes, t)) == Some((status, bytes, t))
  {
    RunOf(status, " " + (bytes + t), IsDigit);
    LitOf(' ', bytes + t);
    RunOf(bytes, t, IsDigit);
  }

  lemma StatusPartSound(s: string)
    requires StatusPart(s).Some?
    ensures var (status, bytes, t) := StatusPart(s).value;
      IsNumeral(status) && IsNumeral(bytes) && EndsNumber(t) && s == StatusText(status, bytes, t)
  {
  }

  /** Every well-formed request, rendered and followed by anything that does
      not extend its byte count, is recognised as exactly that request. */
  lemma ParseLogLineComplete(r: LogRequest, tail: string)
    requires WellFormed(r) && EndsNumber(tail)
    ensures ParseLogLine(Render(r) + tail) == Some(r)
  {
    RenderWithIsConcat(r, tail);
    var t3 := StatusText(r.status, r.bytes, tail);
    var t2 := RequestText(r.verb, r.url, r.protocol, t3);
    var t1 := TimeText(r.timestamp, t2);
    ClientPartOf(r.host, r.ident, r.authUser, t1);
    TimePartOf(r.timestamp, t2);
    RequestPartOf(r.verb, r.url, r.protocol, t3);
    StatusPartOf(r.status, r.bytes, tail);
  }

  /** Every recognised line is a well-formed request rendered at the start
      of the line, followed by text that does not extend its byte count. */
  lemma ParseLogLineSound(line: string)
    requires ParseLogLine(line).Some?
    ensures WellFormed(ParseLogLine(line).value)
    ensures Render(ParseLogLine(line).value) <= line
    ensures EndsNumber(line[|Render(ParseLogLine(line).value)|..])
  {
    ClientPartSound(line);
    var (host, ident, user, s1) := ClientPart(line).value;
    TimePartSound(s1);
    var ts := TimePart(s1).value;
    RequestPartSound(ts.rest);
    var (verb, url, proto, s2) := RequestPart(ts.rest).value;
    StatusPartSound(s2);
    var (status, bytes, tail) := StatusPart(s2).value;
    var r := LogRequest(host, ident, user, ts.token, verb, url, proto, status, bytes);
    assert ParseLogLine(line) == Some(r);
    assert line == RenderWith(r, tail);
    RenderWithIsConcat(r, tail);
    assert line[|Render(r)|..] == tail;
  }
}
