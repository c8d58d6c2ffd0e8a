/** The report of `analyze_apache_log`: the url table's entries sorted by hit
    count, descending and stably, cut to the first 20, each with its status
    distribution rendered as `code:count` items joined by ", ". */
module LogReport {
  import opened Wrappers
  import opened Text
  import opened OrderedMap
  import opened Ranking
  import opened AccessLog
  import opened UrlStats

  /** Number of urls the report lists at most */
  const ReportSize: nat := 20

  /** One item of `url_stats.items()` */
  datatype Entry = Entry(url: string, stats: Stats)

  /** The ranking key: the url's hit count */
  function Hits(e: Entry): real {
    e.stats.count as real
  }

  /** The entries of the table in key (first-seen) order */
  function Entries(t: UrlTable): (es: seq<Entry>)
    requires Valid(t)
    ensures |es| == |t.keys|
    ensures forall i :: 0 <= i < |es| ==> es[i].url == t.keys[i] && es[i].stats == t.vals[t.keys[i]]
  {
    EntryList(t.keys, t.vals)
  }

  function EntryList(keys: seq<string>, vals: map<string, Stats>): (es: seq<Entry>)
    requires forall k <- keys :: k in vals
    ensures |es| == |keys|
    ensures forall i :: 0 <= i < |es| ==> es[i].url == keys[i] && es[i].stats == vals[keys[i]]
  {
    if |keys| == 0 then [] else [Entry(keys[0], vals[keys[0]])] + EntryList(keys[1..], vals)
  }

  /** The (code, count) pairs of a status map, in key order */
  function Pairs(keys: seq<string>, vals: map<string, nat>): (ps: seq<(string, nat)>)
    requires forall k <- keys :: k in vals
    ensures |ps| == |keys|
    ensures forall i :: 0 <= i < |ps| ==> ps[i] == (keys[i], vals[keys[i]])
  {
    if |keys| == 0 then [] else [(keys[0], vals[keys[0]])] + Pairs(keys[1..], vals)
  }

  function ItemText(p: (string, nat)): string {
    p.0 + ":" + NatToString(p.1)
  }

  function ItemTexts(ps: seq<(string, nat)>): seq<string> {
    if |ps| == 0 then [] else [ItemText(ps[0])] + ItemTexts(ps[1..])
  }

  /** Python's `", ".join(items)` */
  function JoinComma(items: seq<string>): string {
    if |items| == 0 then ""
    else if |items| == 1 then items[0]
    else items[0] + (", " + JoinComma(items[1..]))
  }

  /** The status text of one url: a `code:count` item per status code, in
      the table's key order, joined by a comma and a space */
  function StatusString(codes: OMap<string, nat>): string
    requires Valid(codes)
  {
    JoinComma(ItemTexts(Pairs(codes.keys, codes.vals)))
  }

  /** Reads a status string back into its (code, count) pairs */
  function ParseStatusString(s: string): Option<seq<(string, nat)>> {
    if |s| == 0 then Some([]) else ParseItems(s)
  }

  /** One `code:count` item and the text after it */
  function ParseItem(s: string): (r: Option<((string, nat), string)>)
    ensures r.Some? ==> |r.value.1| < |s|
  {
    var code :- Run(s, IsDigit);
    var s1 :- Lit(code.rest, ':');
    var n :- Run(s1, IsDigit);
    Some(((code.token, DecimalValue(n.token)), n.rest))
  }

  /** The separator ", " */
  function Separator(s: string): Option<string> {
    var s1 :- Lit(s, ',');
    Lit(s1, ' ')
  }

  function ParseItems(s: string): Option<seq<(string, nat)>>
    decreases |s|
  {
    var (item, rest) :- ParseItem(s);
    if |rest| == 0 then Some([item])
    else
      var s1 :- Separator(rest);
      var more :- ParseItems(s1);
      Some([item] + more)
  }

  predicate NumeralCodes(ps: seq<(string, nat)>) {
    forall i :: 0 <= i < |ps| ==> IsNumeral(ps[i].0)
  }

  /** The text after an item: nothing, or the separator and further items */
  predicate ItemTail(tail: string) {
    |tail| == 0 || tail[0] == ','
  }

  lemma ParseItemOf(p: (string, nat), tail: string)
    requires IsNumeral(p.0) && ItemTail(tail)
    ensures ParseItem(ItemText(p) + tail) == Some((p, tail))
  {
    var num := NatToString(p.1);
    assert ItemText(p) + tail == p.0 + ([':'] + (num + tail));
    RunOf(p.0, [':'] + (num + tail), IsDigit);
    LitOf(':', num + tail);
    RunOf(num, tail, IsDigit);
  }

  lemma SeparatorOf(t: string)
    ensures Separator(", " + t) == Some(t)
  {
    assert ", " + t == [','] + ([' '] + t);
    LitOf(',', [' '] + t);
    LitOf(' ', t);
  }

  lemma ParseItemsSingle(p: (string, nat))
    requires IsNumeral(p.0)
    ensures ParseItems(ItemText(p)) == Some([p])
  {
    ParseItemOf(p, "");
    assert ItemText(p) + "" == ItemText(p);
  }

  lemma ParseItemsCons(p: (string, nat), t: string, qs: seq<(string, nat)>)
    requires IsNumeral(p.0)
    requires ParseItems(t) == Some(qs)
    ensures ParseItems(ItemText(p) + (", " + t)) == Some([p] + qs)
  {
    ParseItemOf(p, ", " + t);
    SeparatorOf(t);
  }

  lemma JoinCommaCons(ps: seq<(string, nat)>)
    requires |ps| > 1
    ensures JoinComma(ItemTexts(ps)) == ItemText(ps[0]) + (", " + JoinComma(ItemTexts(ps[1..])))
  {
    var texts := ItemTexts(ps);
    assert texts == [ItemText(ps[0])] + ItemTexts(ps[1..]);
    assert texts[1..] == ItemTexts(ps[1..]);
  }

  lemma JoinCommaSingle(ps: seq<(string, nat)>)
    requires |ps| == 1
    ensures JoinComma(ItemTexts(ps)) == ItemText(ps[0])
  {
    assert ItemTexts(ps) == [ItemText(ps[0])] + ItemTexts(ps[1..]);
  }

  lemma {:induction false} ParseItemsRoundTrip(ps: seq<(string, nat)>)
    requires |ps| > 0 && NumeralCodes(ps)
    ensures ParseItems(JoinComma(ItemTexts(ps))) == Some(ps)
    decreases |ps|
  {
    assert IsNumeral(ps[0].0);
    if |ps| == 1 {
      JoinCommaSingle(ps);
      ParseItemsSingle(ps[0]);
      assert ps == [ps[0]];
    } else {
      NumeralCodesTail(ps);
      ParseItemsRoundTrip(ps[1..]);
      ParseItemsRoundTripCons(ps);
    }
  }

  /** The inductive step: one more item in front of a text that reads back */
  lemma ParseItemsRoundTripCons(ps: seq<(string, nat)>)
    requires |ps| > 1 && IsNumeral(ps[0].0)
    requires ParseItems(JoinComma(ItemTexts(ps[1..]))) == Some(ps[1..])
    ensures ParseItems(JoinComma(ItemTexts(ps))) == Some(ps)
  {
    var tail := ps[1..];
    ParseItemsCons(ps[0], JoinComma(ItemTexts(tail)), tail);
    JoinCommaCons(ps);
    assert ps == [ps[0]] + tail;
  }

  lemma NumeralCodesTail(ps: seq<(string, nat)>)
    requires |ps| > 0 && NumeralCodes(ps)
    ensures NumeralCodes(ps[1..])
  {
    forall i | 0 <= i < |ps| - 1 ensures IsNumeral(ps[1..][i].0) {
      assert ps[1..][i] == ps[i + 1];
    }
  }

  /** The status string names every status code with its count, in the map's
      key order, and can be read back without loss. */
  lemma StatusStringRoundTrip(codes: OMap<string, nat>)
    requires Valid(codes)
    requires forall k <- codes.keys :: IsNumeral(k)
    ensures ParseStatusString(StatusString(codes)) == Some(Pairs(codes.keys, codes.vals))
  {
    var ps := Pairs(codes.keys, codes.vals);
    if |ps| > 0 {
      assert codes.keys[0] in codes.keys;
      assert |ItemText(ps[0])| > 0;
      assert ItemTexts(ps) == [ItemText(ps[0])] + ItemTexts(ps[1..]);
      assert |JoinComma(ItemTexts(ps))| > 0;
      ParseItemsRoundTrip(ps);
    }
  }

  /** The entries are the table's (url, record) pairs, one per url */
  lemma EntriesDistinct(t: UrlTable)
    requires Valid(t)
    ensures forall e <- Entries(t) :: e.url in t.vals && e.stats == t.vals[e.url]
    ensures forall u :: u in t.vals ==> Entry(u, t.vals[u]) in Entries(t)
    ensures forall i, j :: 0 <= i < j < |Entries(t)| ==> Entries(t)[i].url != Entries(t)[j].url
  {
    forall u | u in t.vals ensures Entry(u, t.vals[u]) in Entries(t) {
      var i :| 0 <= i < |t.keys| && t.keys[i] == u;
      assert Entries(t)[i] == Entry(u, t.vals[u]);
    }
  }

  /** One printed line of the report */
  datatype ReportRow = ReportRow(url: string, hits: nat, statusText: string)

  function RowOf(e: Entry): ReportRow
    requires Valid(e.stats.codes)
  {
    ReportRow(e.url, e.stats.count, StatusString(e.stats.codes))
  }

  /** The entries printed: the table's entries stably sorted by descending
      hit count, cut to the first twenty */
  function Ranked(t: UrlTable): (r: seq<Entry>)
    requires Valid(t)
    requires forall u :: u in t.vals ==> Valid(t.vals[u].codes)
    ensures |r| == if ReportSize < |t.keys| then ReportSize else |t.keys|
    ensures SortedDesc(r, Hits)
    ensures forall e <- r :: Valid(e.stats.codes) && e.url in t.vals && t.vals[e.url] == e.stats
  {
    var es := Entries(t);
    EntriesDistinct(t);
    TopKMembers(es, Hits, ReportSize);
    TopK(es, Hits, ReportSize)
  }

  /** The ranked entries are taken from the table, and none of the entries
      left out has more hits than one taken. */
  lemma RankedSelection(t: UrlTable)
    requires Valid(t)
    requires forall u :: u in t.vals ==> Valid(t.vals[u].codes)
    ensures multiset(Ranked(t)) <= multiset(Entries(t))
    ensures forall x, e :: x in Ranked(t) && e in multiset(Entries(t)) - multiset(Ranked(t)) ==> Hits(x) >= Hits(e)
  {
  }

  /** The ranked entries are the start of a rearrangement of all entries */
  lemma RankedPrefix(t: UrlTable)
    requires Valid(t)
    requires forall u :: u in t.vals ==> Valid(t.vals[u].codes)
    ensures Ranked(t) <= SortDesc(Entries(t), Hits)
    ensures multiset(SortDesc(Entries(t), Hits)) == multiset(Entries(t))
  {
  }

  function RowsOf(es: seq<Entry>): (rows: seq<ReportRow>)
    requires forall e <- es :: Valid(e.stats.codes)
    ensures |rows| == |es|
    ensures forall i :: 0 <= i < |es| ==> rows[i] == RowOf(es[i])
  {
    if |es| == 0 then [] else [RowOf(es[0])] + RowsOf(es[1..])
  }

  lemma RowsSorted(es: seq<Entry>)
    requires forall e <- es :: Valid(e.stats.codes)
    requires SortedDesc(es, Hits)
    ensures forall i, j :: 0 <= i < j < |es| ==> RowsOf(es)[i].hits >= RowsOf(es)[j].hits
  {
    forall i, j | 0 <= i < j < |es| ensures RowsOf(es)[i].hits >= RowsOf(es)[j].hits {
      assert Hits(es[i]) >= Hits(es[j]);
    }
  }

  /** The rows printed for a url table */
  function ReportRows(t: UrlTable): (rows: seq<ReportRow>)
    requires Valid(t)
    requires forall u :: u in t.vals ==> Valid(t.vals[u].codes)
    ensures |rows| <= ReportSize
    ensures |rows| == if ReportSize < |t.keys| then ReportSize else |t.keys|
    ensures forall i :: 0 <= i < |rows| ==> rows[i] == RowOf(Ranked(t)[i])
  {
    RowsOf(Ranked(t))
  }

  /** The rows are printed in non-increasing order of hits */
  lemma ReportRowsSorted(t: UrlTable)
    requires Valid(t)
    requires forall u :: u in t.vals ==> Valid(t.vals[u].codes)
    ensures forall i, j :: 0 <= i < j < |ReportRows(t)| ==> ReportRows(t)[i].hits >= ReportRows(t)[j].hits
  {
    var ranked := Ranked(t);
    RowsSorted(ranked);
  }

  /** The rows `analyze_apache_log` prints for a log */
  function AnalyzeLog(lines: seq<string>): seq<ReportRow> {
    ReportRows(Aggregate(lines))
  }

  /** Every reported row stands for the counted requests of its url: the hit
      count is their number and the status string renders the tally of their
      status codes in first-seen order. */
  lemma ReportRowsMeaning(lines: seq<string>, i: nat)
    requires i < |AnalyzeLog(lines)|
    ensures var row := AnalyzeLog(lines)[i];
      && row.hits == multiset(Urls(Kept(lines)))[row.url] >= 1
      && row.statusText == StatusString(Tally(StatusesFor(Kept(lines), row.url)))
  {
    var t := Aggregate(lines);
    var e := Ranked(t)[i];
    assert e in Ranked(t);
    AggregateSpec(lines);
    AggregateTotals(lines, e.url);
  }

  /** Every printed status string reads back as its url's (code, count)
      pairs in first-seen order: the codes the pattern captures are numerals,
      so the rendering loses nothing. */
  lemma ReportStatusReadsBack(lines: seq<string>, i: nat)
    requires i < |AnalyzeLog(lines)|
    ensures var row := AnalyzeLog(lines)[i];
      && row.url in Aggregate(lines).vals
      && var codes := Aggregate(lines).vals[row.url].codes;
         ParseStatusString(row.statusText) == Some(Pairs(codes.keys, codes.vals))
  {
    var t := Aggregate(lines);
    var e := Ranked(t)[i];
    assert e in Ranked(t);
    assert AnalyzeLog(lines)[i] == RowOf(e);
    AggregateTotals(lines, e.url);
    StatusStringRoundTrip(e.stats.codes);
  }

  /** A url left out of the report has no more hits than any url in it */
  lemma ReportDominates(lines: seq<string>, u: string)
    requires u in Aggregate(lines).vals
    requires forall row <- AnalyzeLog(lines) :: row.url != u
    ensures forall row <- AnalyzeLog(lines) :: row.hits >= Aggregate(lines).vals[u].count
  {
    var t := Aggregate(lines);
    var es := Entries(t);
    var ranked := Ranked(t);
    var rows := AnalyzeLog(lines);
    var e := Entry(u, t.vals[u]);
    RankedSelection(t);
    EntriesDistinct(t);
    assert e in multiset(es);
    forall i | 0 <= i < |ranked| ensures ranked[i] != e {
      assert rows[i] in rows;
    }
    assert e !in multiset(ranked);
    assert e in multiset(es) - multiset(ranked);
    forall i | 0 <= i < |rows| ensures rows[i].hits >= t.vals[u].count {
      assert ranked[i] in ranked;
      assert Hits(ranked[i]) >= Hits(e);
    }
  }

  lemma {:induction false} WithKeyPrefix<T>(a: seq<T>, b: seq<T>, key: T -> real, k: real)
    requires a <= b
    ensures WithKey(a, key, k) <= WithKey(b, key, k)
  {
    if |a| > 0 {
      assert a[1..] <= b[1..];
      WithKeyPrefix(a[1..], b[1..], key, k);
    }
  }

  /** Ties keep the table's order: for every hit count, the reported entries
      with that count are a prefix of the table's entries with that count in
      first-seen order of their urls. */
  lemma RankedTies(lines: seq<string>, k: real)
    ensures WithKey(Ranked(Aggregate(lines)), Hits, k) <= WithKey(Entries(Aggregate(lines)), Hits, k)
  {
    var es := Entries(Aggregate(lines));
    var s := SortDesc(es, Hits);
    assert Ranked(Aggregate(lines)) <= s;
    WithKeyPrefix(Ranked(Aggregate(lines)), s, Hits, k);
    SortStable(es, Hits, k);
  }
}
