/** Worked examples: concrete inputs run through the model from text to
    report. */
module Scenarios {
  import opened Wrappers
  import opened Text
  import opened OrderedMap
  import opened Ranking
  import opened AccessLog
  import opened UrlStats
  import opened LogReport
  import opened Sequences

  /** `1.1.1.1 - - [t] "GET /index.php?a=1 HTTP/1.1" 200 512` */
  const IndexHit: LogRequest :=
    LogRequest("1.1.1.1", "-", "-", "t", "GET", "/index.php?a=1", "HTTP/1.1", "200", "512")

  /** The same request for `/other.php` */
  const OtherHit: LogRequest :=
    LogRequest("1.1.1.1", "-", "-", "t", "GET", "/other.php", "HTTP/1.1", "200", "512")

  /** Both example requests have the shape the pattern accepts */
  lemma IndexHitWellFormed()
    ensures WellFormed(IndexHit)
  {
  }

  lemma OtherHitWellFormed()
    ensures WellFormed(OtherHit)
  {
  }

  /** A rendered well-formed request is recognised as itself */
  lemma RenderedParses(r: LogRequest)
    requires WellFormed(r)
    ensures ParseLogLine(Render(r)) == Some(r)
  {
    ParseLogLineComplete(r, "");
    assert Render(r) + "" == Render(r);
  }

  lemma IndexHitKept()
    ensures KeptRequest(Render(IndexHit)) == Some(IndexHit)
  {
    IndexHitWellFormed();
    RenderedParses(IndexHit);
    assert IndexPage <= IndexHit.url[1..];
  }

  /** A text shorter than sub cannot contain it */
  lemma {:induction false} ContainsTooShort(s: string, sub: string)
    requires |s| < |sub|
    ensures !Contains(s, sub)
    decreases |s|
  {
    if |s| > 0 {
      ContainsTooShort(s[1..], sub);
    }
  }

  lemma OtherUrlDropped()
    ensures !Contains(OtherHit.url, IndexPage)
  {
    var s := OtherHit.url;
    assert s[0] != IndexPage[0];
    assert s[1..][0] != IndexPage[0];
    ContainsTooShort(s[1..][1..], IndexPage);
  }

  lemma OtherHitDropped()
    ensures KeptRequest(Render(OtherHit)) == None
  {
    OtherHitWellFormed();
    RenderedParses(OtherHit);
    OtherUrlDropped();
  }

  /** Three hits on `/index.php?a=1` with status 200 */
  function ThreeHits(): UrlTable {
    Record(Record(Record(Empty(), IndexHit), IndexHit), IndexHit)
  }

  lemma KeptSnoc(lines: seq<string>, line: string)
    ensures Kept(lines + [line]) == Kept(lines) + Emit(KeptRequest(line))
  {
    assert (lines + [line])[..|lines|] == lines;
  }

  /** A counted line adds its request at the end */
  lemma KeptCounted(lines: seq<string>, line: string, r: LogRequest)
    requires KeptRequest(line) == Some(r)
    ensures Kept(lines + [line]) == Kept(lines) + [r]
  {
    KeptSnoc(lines, line);
  }

  /** An ignored line adds nothing */
  lemma KeptIgnored(lines: seq<string>, line: string)
    requires KeptRequest(line) == None
    ensures Kept(lines + [line]) == Kept(lines)
  {
    KeptSnoc(lines, line);
  }

  /** Three counted lines count three times */
  lemma KeptThree(a: string, r: LogRequest)
    requires KeptRequest(a) == Some(r)
    ensures Kept([a, a, a]) == [r, r, r]
  {
    assert Kept([]) == [];
    KeptCounted([], a, r);
    assert [] + [a] == [a];
    KeptCounted([a], a, r);
    assert [a] + [a] == [a, a];
    KeptCounted([a, a], a, r);
    assert [a, a] + [a] == [a, a, a];
  }

  /** Two ignored lines after any log change nothing */
  lemma KeptTwoIgnored(lines: seq<string>, b: string)
    requires KeptRequest(b) == None
    ensures Kept(lines + [b, b]) == Kept(lines)
  {
    KeptIgnored(lines, b);
    KeptIgnored(lines + [b], b);
    assert lines + [b] + [b] == lines + [b, b];
  }

  /** Of three counted lines followed by two ignored ones, the three count */
  lemma KeptThreeTwo(a: string, b: string, r: LogRequest)
    requires KeptRequest(a) == Some(r) && KeptRequest(b) == None
    ensures Kept([a, a, a, b, b]) == [r, r, r]
  {
    KeptThree(a, r);
    KeptTwoIgnored([a, a, a], b);
    assert [a, a, a] + [b, b] == [a, a, a, b, b];
  }

  lemma ThreeHitsTable()
    ensures ThreeHits().keys == [IndexHit.url]
    ensures IndexHit.url in ThreeHits().vals
    ensures ThreeHits().vals[IndexHit.url].count == 3
    ensures ThreeHits().vals[IndexHit.url].codes.keys == ["200"]
    ensures Valid(ThreeHits().vals[IndexHit.url].codes)
    ensures "200" in ThreeHits().vals[IndexHit.url].codes.vals
    ensures ThreeHits().vals[IndexHit.url].codes.vals["200"] == 3
  {
    var u := IndexHit.url;
    var t1 := Record(Empty(), IndexHit);
    var t2 := Record(t1, IndexHit);
    assert t1.keys == [u] && t1.vals[u].count == 1;
    assert t1.vals[u].codes.keys == ["200"] && t1.vals[u].codes.vals["200"] == 1;
    assert t2.keys == [u] && t2.vals[u].count == 2;
    assert t2.vals[u].codes.keys == ["200"] && t2.vals[u].codes.vals["200"] == 2;
  }
  lemma AggregateSnoc(lines: seq<string>, line: string)
    ensures Aggregate(lines + [line]) == Step(Aggregate(lines), line)
  {
    assert (lines + [line])[..|lines|] == lines;
  }

  /** A counted line records its request */
  lemma AggregateCounted(lines: seq<string>, line: string, r: LogRequest)
    requires KeptRequest(line) == Some(r)
    ensures Aggregate(lines + [line]) == Record(Aggregate(lines), r)
  {
    AggregateSnoc(lines, line);
  }

  /** An ignored line leaves the table as it was */
  lemma AggregateIgnored(lines: seq<string>, line: string)
    requires KeptRequest(line) == None
    ensures Aggregate(lines + [line]) == Aggregate(lines)
  {
    AggregateSnoc(lines, line);
  }

  /** Appending to a display of copies of one line */
  lemma Copies(a: string)
    ensures [] + [a] == [a] && [a] + [a] == [a, a] && [a, a] + [a] == [a, a, a]
  {
  }

  lemma AggregateThree(a: string, r: LogRequest)
    requires KeptRequest(a) == Some(r)
    ensures Aggregate([a, a, a]) == Record(Record(Record(Empty(), r), r), r)
  {
    Copies(a);
    AggregateCounted([], a, r);
    AggregateCounted([a], a, r);
    AggregateCounted([a, a], a, r);
  }

  lemma AggregateTwoIgnored(lines: seq<string>, b: string)
    requires KeptRequest(b) == None
    ensures Aggregate(lines + [b, b]) == Aggregate(lines)
  {
    AggregateIgnored(lines, b);
    AggregateIgnored(lines + [b], b);
    assert lines + [b] + [b] == lines + [b, b];
  }

  lemma ThreeTwo(a: string, b: string)
    ensures [a, a, a] + [b, b] == [a, a, a, b, b]
  {
  }

  /** The table of three counted lines followed by two ignored ones */
  lemma AggregateThreeTwo(a: string, b: string, r: LogRequest)
    requires KeptRequest(a) == Some(r) && KeptRequest(b) == None
    ensures Aggregate([a, a, a, b, b]) == Record(Record(Record(Empty(), r), r), r)
  {
    AggregateTwoIgnored([a, a, a], b);
    ThreeTwo(a, b);
    AggregateThree(a, r);
  }

  /** The log of three `/index.php?a=1` hits and two `/other.php` hits */
  function ExampleLog(): seq<string> {
    var a, b := Render(IndexHit), Render(OtherHit);
    [a, a, a, b, b]
  }

  /** The example log counts only the index page: one url, three hits, all
      with status 200 */
  lemma ExampleLogTable()
    ensures Kept(ExampleLog()) == [IndexHit, IndexHit, IndexHit]
    ensures Aggregate(ExampleLog()) == ThreeHits()
    ensures Aggregate(ExampleLog()).keys == ["/index.php?a=1"]
    ensures Aggregate(ExampleLog()).vals["/index.php?a=1"].count == 3
    ensures Aggregate(ExampleLog()).vals["/index.php?a=1"].codes.keys == ["200"]
    ensures Aggregate(ExampleLog()).vals["/index.php?a=1"].codes.vals["200"] == 3
  {
    var a, b := Render(IndexHit), Render(OtherHit);
    IndexHitKept();
    OtherHitDropped();
    KeptThreeTwo(a, b, IndexHit);
    AggregateThreeTwo(a, b, IndexHit);
    ThreeHitsTable();
  }
  /** A status map with a single code renders as one `code:count` item */
  lemma StatusStringSingle(codes: OMap<string, nat>, code: string)
    requires Valid(codes) && codes.keys == [code]
    ensures StatusString(codes) == code + ":" + NatToString(codes.vals[code])
  {
    var ps := Pairs(codes.keys, codes.vals);
    assert ps == [(code, codes.vals[code])];
    assert ItemTexts(ps) == [ItemText(ps[0])];
  }

  /** The status string of the three hits */
  lemma ThreeHitsStatus()
    ensures "/index.php?a=1" in ThreeHits().vals
    ensures Valid(ThreeHits().vals["/index.php?a=1"].codes)
    ensures StatusString(ThreeHits().vals["/index.php?a=1"].codes) == "200:3"
  {
    ThreeHitsTable();
    var codes := ThreeHits().vals[IndexHit.url].codes;
    StatusStringSingle(codes, "200");
    assert NatToString(3) == "3";
  }

  /** The example log is reported as one row: the index page with its three
      hits, all with status 200 */
  lemma ExampleReport()
    ensures AnalyzeLog(ExampleLog()) == [ReportRow("/index.php?a=1", 3, "200:3")]
  {
    ExampleLogTable();
    ThreeHitsStatus();
    var t := ThreeHits();
    var rows := ReportRows(t);
    assert |rows| == 1;
    var e := Ranked(t)[0];
    assert e in Ranked(t);
    assert e.url == "/index.php?a=1" && e.stats == t.vals["/index.php?a=1"];
    assert rows[0] == RowOf(e);
    assert rows == [rows[0]];
  }

  /** The status-string reader accepts a leading zero in a count, so not
      every accepted text is a rendered one */
  lemma StatusReaderLenient()
    ensures ParseStatusString("2:03") == Some([("2", 3)])
    ensures ItemText(("2", 3)) == "2:3"
  {
    var s := "2:03";
    assert s == "2" + ([':'] + ("03" + ""));
    RunOf("2", [':'] + ("03" + ""), IsDigit);
    LitOf(':', "03" + "");
    RunOf("03", "", IsDigit);
    assert "03"[..1] == "0";
    assert DecimalValue("0") == 0;
    assert DecimalValue("03") == 3;
    assert ParseItem(s) == Some((("2", 3), ""));
    assert NatToString(3) == "3";
  }
}
