/** The aggregation step of `analyze_apache_log`: one left-to-right pass over
    the log's lines that, for every recognised request whose url contains
    `index.php`, bumps the hit count of that url and the count of its status
    code, creating either entry on first sight (defaultdict semantics). */
module UrlStats {
  import opened Wrappers
  import opened Text
  import opened OrderedMap
  import opened AccessLog

  /** The substring a url must contain to be counted */
  const IndexPage: string := "index.php"

  /** The per-url record: total hits and hits per status code */
  datatype Stats = Stats(count: nat, codes: OMap<string, nat>)

  type UrlTable = OMap<string, Stats>

  /** The request a line contributes: it must match the pattern and its url
      must contain `index.php`. */
  function KeptRequest(line: string): (r: Option<LogRequest>)
    ensures r.Some? <==> ParseLogLine(line).Some? && Contains(ParseLogLine(line).value.url, IndexPage)
    ensures r.Some? ==> r == ParseLogLine(line)
  {
    match ParseLogLine(line)
    case None => None
    case Some(req) => if Contains(req.url, IndexPage) then Some(req) else None
  }

  /** The counted requests of a log, in line order */
  function Kept(lines: seq<string>): seq<LogRequest> {
    if |lines| == 0 then []
    else
      Kept(lines[..|lines| - 1])
        + match KeptRequest(lines[|lines| - 1]) case None => [] case Some(req) => [req]
  }

  function Urls(reqs: seq<LogRequest>): seq<string> {
    if |reqs| == 0 then [] else Urls(reqs[..|reqs| - 1]) + [reqs[|reqs| - 1].url]
  }

  /** The status codes of the requests for url u, in order */
  function StatusesFor(reqs: seq<LogRequest>, u: string): seq<string> {
    if |reqs| == 0 then []
    else
      StatusesFor(reqs[..|reqs| - 1], u)
        + (if reqs[|reqs| - 1].url == u then [reqs[|reqs| - 1].status] else [])
  }

  /** One more hit with the given status code */
  function Hit(s: Stats, status: string): Stats {
    Stats(s.count + 1, Update(s.codes, status, 0, Succ))
  }

  /** One counted request: the url's hit count and the count of its status
      code each go up by one */
  function Record(agg: UrlTable, req: LogRequest): (r: UrlTable)
    ensures Valid(agg) ==> Valid(r)
    ensures req.url in r.vals
    ensures r.vals[req.url] == Hit(if req.url in agg.vals then agg.vals[req.url] else Stats(0, Empty()), req.status)
    ensures forall u :: u in agg.vals && u != req.url ==> u in r.vals && r.vals[u] == agg.vals[u]
    ensures forall u :: u in r.vals ==> u == req.url || u in agg.vals
    ensures req.url in agg.vals ==> r.keys == agg.keys
    ensures req.url !in agg.vals ==> r.keys == agg.keys + [req.url]
  {
    Update(agg, req.url, Stats(0, Empty()), (s: Stats) => Hit(s, req.status))
  }

  /** The body of the loop over the log's lines */
  function Step(agg: UrlTable, line: string): UrlTable {
    match KeptRequest(line)
    case None => agg
    case Some(req) => Record(agg, req)
  }

  /** `url_stats` after the loop has consumed all of `lines` */
  function Aggregate(lines: seq<string>): (agg: UrlTable)
    ensures Valid(agg)
    ensures forall u :: u in agg.vals ==> Valid(agg.vals[u].codes)
  {
    if |lines| == 0 then Empty()
    else Step(Aggregate(lines[..|lines| - 1]), lines[|lines| - 1])
  }

  /** A line that does not match, or whose url lacks `index.php`, leaves the
      aggregate as it was. */
  lemma StepIgnores(agg: UrlTable, line: string)
    requires ParseLogLine(line).None? || !Contains(ParseLogLine(line).value.url, IndexPage)
    ensures Step(agg, line) == agg
  {
  }

  lemma {:induction false} StatusesForAbsent(reqs: seq<LogRequest>, u: string)
    requires u !in Urls(reqs)
    ensures StatusesFor(reqs, u) == []
  {
    if |reqs| > 0 {
      StatusesForAbsent(reqs[..|reqs| - 1], u);
    }
  }

  lemma {:induction false} StatusesForCount(reqs: seq<LogRequest>, u: string)
    ensures |StatusesFor(reqs, u)| == multiset(Urls(reqs))[u]
  {
    if |reqs| > 0 {
      StatusesForCount(reqs[..|reqs| - 1], u);
    }
  }

  lemma KeptAppend(lines: seq<string>)
    requires |lines| > 0
    ensures var front := lines[..|lines| - 1];
      match KeptRequest(lines[|lines| - 1])
      case None => Kept(lines) == Kept(front)
      case Some(req) => Kept(lines) == Kept(front) + [req]
  {
  }

  lemma UrlsAppend(reqs: seq<LogRequest>, req: LogRequest, u: string)
    ensures Urls(reqs + [req]) == Urls(reqs) + [req.url]
    ensures StatusesFor(reqs + [req], u)
         == StatusesFor(reqs, u) + (if req.url == u then [req.status] else [])
  {
    assert (reqs + [req])[..|reqs|] == reqs;
  }

  /** The url keys are the counted urls in the order they were first seen */
  lemma {:induction false} AggregateOrder(lines: seq<string>)
    ensures FirstSeenOrder(Aggregate(lines).keys, Urls(Kept(lines)))
  {
    if |lines| > 0 {
      var front := lines[..|lines| - 1];
      AggregateOrder(front);
      KeptAppend(lines);
      match KeptRequest(lines[|lines| - 1])
      case None =>
      case Some(req) =>
        UrlsAppend(Kept(front), req, req.url);
        FirstSeenOrderAppend(Aggregate(front).keys, Urls(Kept(front)), req.url);
    }
  }

  /** What one counted request does to the record of its own url */
  lemma HitEffectSame(prev: UrlTable, reqs: seq<LogRequest>, req: LogRequest)
    requires forall k <- Urls(reqs) :: k in prev.vals
    requires req.url in prev.vals ==> && prev.vals[req.url].count == multiset(Urls(reqs))[req.url]
                                      && prev.vals[req.url].codes == Tally(StatusesFor(reqs, req.url))
    ensures Record(prev, req).vals[req.url].count == multiset(Urls(reqs + [req]))[req.url]
    ensures Record(prev, req).vals[req.url].codes == Tally(StatusesFor(reqs + [req], req.url))
  {
    var u := req.url;
    UrlsAppend(reqs, req, u);
    TallyAppend(StatusesFor(reqs, u), req.status);
    if u !in prev.vals {
      assert u !in Urls(reqs);
      StatusesForAbsent(reqs, u);
      assert multiset(Urls(reqs))[u] == 0;
    }
    assert multiset(Urls(reqs) + [u])[u] == multiset(Urls(reqs))[u] + 1;
  }

  /** A counted request leaves the records of other urls as they were */
  lemma HitEffectOther(prev: UrlTable, reqs: seq<LogRequest>, req: LogRequest, u: string)
    requires u in prev.vals && u != req.url
    requires prev.vals[u].count == multiset(Urls(reqs))[u]
    requires prev.vals[u].codes == Tally(StatusesFor(reqs, u))
    ensures Record(prev, req).vals[u].count == multiset(Urls(reqs + [req]))[u]
    ensures Record(prev, req).vals[u].codes == Tally(StatusesFor(reqs + [req], u))
  {
    UrlsAppend(reqs, req, u);
    assert multiset(Urls(reqs) + [req.url])[u] == multiset(Urls(reqs))[u];
    assert StatusesFor(reqs, u) + [] == StatusesFor(reqs, u);
  }

  /** Each url's record holds the number of counted requests for it and the
      tally of their status codes. */
  lemma {:induction false} AggregateValues(lines: seq<string>)
    ensures forall u :: u in Aggregate(lines).vals ==>
      && Aggregate(lines).vals[u].count == multiset(Urls(Kept(lines)))[u]
      && Aggregate(lines).vals[u].codes == Tally(StatusesFor(Kept(lines), u))
  {
    if |lines| > 0 {
      var front := lines[..|lines| - 1];
      AggregateValues(front);
      AggregateOrder(front);
      KeptAppend(lines);
      match KeptRequest(lines[|lines| - 1])
      case None =>
      case Some(req) =>
        forall u | u in Aggregate(lines).vals
          ensures Aggregate(lines).vals[u].count == multiset(Urls(Kept(lines)))[u]
          ensures Aggregate(lines).vals[u].codes == Tally(StatusesFor(Kept(lines), u))
        {
          if u == req.url {
            HitEffectSame(Aggregate(front), Kept(front), req);
          } else {
            HitEffectOther(Aggregate(front), Kept(front), req, u);
          }
        }
    }
  }

  /** Every url key stands for the counted requests with that url: the keys
      are the counted urls in first-seen order, the count is their number and
      the status map is the tally of their status codes. */
  lemma AggregateSpec(lines: seq<string>)
    ensures FirstSeenOrder(Aggregate(lines).keys, Urls(Kept(lines)))
    ensures forall u :: u in Aggregate(lines).vals ==>
      && Aggregate(lines).vals[u].count == multiset(Urls(Kept(lines)))[u]
      && Aggregate(lines).vals[u].codes == Tally(StatusesFor(Kept(lines), u))
  {
    AggregateOrder(lines);
    AggregateValues(lines);
  }

  /** Every counted request is one the pattern recognised, so it is well
      formed; in particular its status code is a numeral. */
  lemma {:induction false} KeptWellFormed(lines: seq<string>)
    ensures forall r <- Kept(lines) :: WellFormed(r)
  {
    if |lines| > 0 {
      var front := lines[..|lines| - 1];
      KeptWellFormed(front);
      KeptAppend(lines);
      var line := lines[|lines| - 1];
      if KeptRequest(line).Some? {
        ParseLogLineSound(line);
      }
    }
  }

  lemma {:induction false} StatusesForNumeral(reqs: seq<LogRequest>, u: string)
    requires forall r <- reqs :: WellFormed(r)
    ensures forall c <- StatusesFor(reqs, u) :: IsNumeral(c)
  {
    if |reqs| > 0 {
      var front := reqs[..|reqs| - 1];
      assert forall r <- front :: r in reqs;
      StatusesForNumeral(front, u);
      assert reqs[|reqs| - 1] in reqs;
    }
  }

  /** Every key counts at least one hit, and its status counts add up to its
      hit count; every status key is a numeral as the pattern captured it. */
  lemma AggregateTotals(lines: seq<string>, u: string)
    requires u in Aggregate(lines).vals
    ensures Aggregate(lines).vals[u].count >= 1
    ensures Valid(Aggregate(lines).vals[u].codes)
    ensures SumValues(Aggregate(lines).vals[u].codes) == Aggregate(lines).vals[u].count
    ensures forall c <- Aggregate(lines).vals[u].codes.keys :: IsNumeral(c)
  {
    AggregateSpec(lines);
    var reqs := Kept(lines);
    StatusesForCount(reqs, u);
    TallySum(StatusesFor(reqs, u));
    AggregateCodesNumeral(lines, u);
  }

  lemma AggregateCodesNumeral(lines: seq<string>, u: string)
    requires u in Aggregate(lines).vals
    ensures forall c <- Aggregate(lines).vals[u].codes.keys :: IsNumeral(c)
  {
    var reqs := Kept(lines);
    AggregateValues(lines);
    KeptWellFormed(lines);
    StatusesForNumeral(reqs, u);
    TallyOrder(StatusesFor(reqs, u));
  }
}
