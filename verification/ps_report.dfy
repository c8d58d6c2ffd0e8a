/** What `main` of the process lister does with the records: it stops with
    "No processes found" when there are none, and otherwise prints two tables
    of the same records, one sorted by cpu and one by mem, both descending and
    stable. A printed row shows the sort key's value in its third column, the
    mem value in its fourth and at most 80 characters of the command. */
module PsReport {
  import opened Wrappers
  import opened Text
  import opened Ranking
  import opened PsParse

  /** The `sort_key` argument of `print_processes` */
  datatype SortKey = Cpu | Mem

  function CpuOf(p: Process): real {
    p.cpu
  }

  function MemOf(p: Process): real {
    p.mem
  }

  /** `lambda x: x['cpu']` or `lambda x: x['mem']` */
  function KeyOf(k: SortKey): Process -> real {
    match k
    case Cpu => CpuOf
    case Mem => MemOf
  }

  /** Number of command characters a row shows at most */
  const CommandWidth: nat := 80

  /** One printed row, as field values rather than padded text */
  datatype ProcRow = ProcRow(pid: string, user: string, shown: real, mem: real, cmd: string)

  /** The row `print_processes` prints for p */
  function RowFor(p: Process, k: SortKey): (row: ProcRow)
    ensures row.pid == p.pid && row.user == p.user && row.mem == p.mem
    ensures row.shown == (if k == Cpu then p.cpu else p.mem)
    ensures row.cmd <= p.cmd
    ensures |row.cmd| == if CommandWidth < |p.cmd| then CommandWidth else |p.cmd|
  {
    ProcRow(p.pid, p.user, KeyOf(k)(p), p.mem, Take(p.cmd, CommandWidth))
  }

  function Rows(ps: seq<Process>, k: SortKey): (rows: seq<ProcRow>)
    ensures |rows| == |ps|
    ensures forall i :: 0 <= i < |ps| ==> rows[i] == RowFor(ps[i], k)
  {
    if |ps| == 0 then [] else [RowFor(ps[0], k)] + Rows(ps[1..], k)
  }

  /** The records stably sorted by the chosen key, largest first */
  function SortedBy(procs: seq<Process>, k: SortKey): seq<Process> {
    SortDesc(procs, KeyOf(k))
  }

  /** One printed table: the rows of the records sorted by the key */
  function Table(procs: seq<Process>, k: SortKey): (rows: seq<ProcRow>)
    ensures |rows| == |procs|
    ensures forall i :: 0 <= i < |rows| ==> rows[i] == RowFor(SortedBy(procs, k)[i], k)
  {
    Rows(SortedBy(procs, k), k)
  }

  /** What `main` prints */
  datatype ProcReport = NoProcesses | Tables(byCpu: seq<ProcRow>, byMem: seq<ProcRow>)

  /** `main` once the records are in hand */
  function Report(procs: seq<Process>): (r: ProcReport)
    ensures r.NoProcesses? <==> |procs| == 0
    ensures r.Tables? ==> |r.byCpu| == |procs| && |r.byMem| == |procs|
  {
    if |procs| == 0 then NoProcesses
    else Tables(Table(procs, Cpu), Table(procs, Mem))
  }

  /** `main`: list the processes, then report on them */
  method RunReport(psOutput: Option<string>) returns (r: ProcReport)
    ensures r.NoProcesses? <==> psOutput.None? || |ParseAll(DataLines(psOutput.value))| == 0
    ensures r.Tables? ==> r == Report(ParseAll(DataLines(psOutput.value)))
  {
    var procs := GetProcesses(psOutput);
    r := Report(procs);
  }

  /** Each sorted list holds exactly the parsed records, in non-increasing
      order of its key, and records with equal keys keep their input order. */
  lemma SortedByArrangement(procs: seq<Process>, k: SortKey, v: real)
    ensures multiset(SortedBy(procs, k)) == multiset(procs)
    ensures SortedDesc(SortedBy(procs, k), KeyOf(k))
    ensures WithKey(SortedBy(procs, k), KeyOf(k), v) == WithKey(procs, KeyOf(k), v)
  {
    SortStable(procs, KeyOf(k), v);
  }

  /** The sorted list is the only arrangement with those properties */
  lemma SortedByUnique(procs: seq<Process>, k: SortKey, ys: seq<Process>)
    requires SortedDesc(ys, KeyOf(k))
    requires forall v :: WithKey(ys, KeyOf(k), v) == WithKey(procs, KeyOf(k), v)
    ensures ys == SortedBy(procs, k)
  {
    SortCharacterised(procs, ys, KeyOf(k));
  }

  /** Records already in descending order are printed in that order */
  lemma SortedByIdempotent(procs: seq<Process>, k: SortKey)
    requires SortedDesc(procs, KeyOf(k))
    ensures SortedBy(procs, k) == procs
  {
    SortIdempotent(procs, KeyOf(k));
  }

  /** The third column of a table is non-increasing */
  lemma TableDescending(procs: seq<Process>, k: SortKey)
    ensures forall i, j :: 0 <= i < j < |Table(procs, k)| ==> Table(procs, k)[i].shown >= Table(procs, k)[j].shown
  {
    var s := SortedBy(procs, k);
    var rows := Table(procs, k);
    forall i, j | 0 <= i < j < |rows| ensures rows[i].shown >= rows[j].shown {
      assert KeyOf(k)(s[i]) >= KeyOf(k)(s[j]);
      assert rows[i].shown == KeyOf(k)(s[i]) && rows[j].shown == KeyOf(k)(s[j]);
    }
  }

  /** In the memory table both numeric columns show the mem value; in the
      cpu table the third column shows cpu. */
  lemma TableColumns(procs: seq<Process>)
    ensures forall row <- Table(procs, Mem) :: row.shown == row.mem
    ensures forall i :: 0 <= i < |procs| ==> Table(procs, Cpu)[i].shown == SortedBy(procs, Cpu)[i].cpu
  {
    var rows := Table(procs, Mem);
    forall row <- rows ensures row.shown == row.mem {
      var i :| 0 <= i < |rows| && rows[i] == row;
    }
  }

  lemma {:induction false} RowsConcat(a: seq<Process>, b: seq<Process>, k: SortKey)
    ensures Rows(a + b, k) == Rows(a, k) + Rows(b, k)
    decreases |a|
  {
    if |a| > 0 {
      assert (a + b)[1..] == a[1..] + b;
      RowsConcat(a[1..], b, k);
    } else {
      assert a + b == b;
    }
  }

  /** Taking the element at j out of a sequence takes it out of its multiset */
  lemma RemoveAt<T>(b: seq<T>, j: nat)
    requires j < |b|
    ensures multiset(b) == multiset(b[..j] + b[j + 1..]) + multiset{b[j]}
  {
    assert b == b[..j] + [b[j]] + b[j + 1..];
  }

  lemma Cancel<T>(m1: multiset<T>, m2: multiset<T>, x: T)
    requires m1 + multiset{x} == m2 + multiset{x}
    ensures m1 == m2
  {
    forall y ensures m1[y] == m2[y] {
      assert (m1 + multiset{x})[y] == (m2 + multiset{x})[y];
    }
  }

  /** The first element of a sequence, found in a rearrangement of it */
  lemma MatchHead<T>(a: seq<T>, b: seq<T>) returns (j: nat)
    requires |a| > 0 && multiset(a) == multiset(b)
    ensures j < |b| && b[j] == a[0]
    ensures multiset(a[1..]) == multiset(b[..j] + b[j + 1..])
  {
    assert a[0] in multiset(b);
    j :| 0 <= j < |b| && b[j] == a[0];
    RemoveAt(b, j);
    assert a == [a[0]] + a[1..];
    assert multiset(a) == multiset(a[1..]) + multiset{a[0]};
    Cancel(multiset(a[1..]), multiset(b[..j] + b[j + 1..]), a[0]);
  }

  lemma ConsPermutation<T>(x: T, s: seq<T>, t: seq<T>, u: seq<T>)
    requires multiset(s) == multiset(t)
    requires multiset(u) == multiset(t) + multiset{x}
    ensures multiset([x] + s) == multiset(u)
  {
  }

  /** Taking a record out takes its row out */
  lemma RowsRemove(b: seq<Process>, j: nat, k: SortKey)
    requires j < |b|
    ensures multiset(Rows(b, k)) == multiset(Rows(b[..j] + b[j + 1..], k)) + multiset{RowFor(b[j], k)}
  {
    var front, x, back := b[..j], b[j], b[j + 1..];
    assert b == front + ([x] + back);
    RowsConcat(front, [x] + back, k);
    RowsConcat([x], back, k);
    RowsConcat(front, back, k);
    assert Rows([x], k) == [RowFor(x, k)];
  }

  /** Rearranging the records rearranges their rows the same way */
  lemma {:induction false} RowsPermutation(a: seq<Process>, b: seq<Process>, k: SortKey)
    requires multiset(a) == multiset(b)
    ensures multiset(Rows(a, k)) == multiset(Rows(b, k))
    decreases |a|
  {
    if |a| == 0 {
      assert |b| == |multiset(b)| == 0;
      assert Rows(b, k) == [];
    } else {
      var j := MatchHead(a, b);
      var rest := b[..j] + b[j + 1..];
      RowsPermutation(a[1..], rest, k);
      RowsRemove(b, j, k);
      assert Rows(a, k) == [RowFor(a[0], k)] + Rows(a[1..], k);
      ConsPermutation(RowFor(a[0], k), Rows(a[1..], k), Rows(rest, k), Rows(b, k));
    }
  }

  /** Each table holds the rows of exactly the parsed records, each as often
      as it was parsed, with its command cut to at most 80 characters. */
  lemma TablePermutation(procs: seq<Process>, k: SortKey)
    ensures multiset(Table(procs, k)) == multiset(Rows(procs, k))
  {
    RowsPermutation(SortedBy(procs, k), procs, k);
  }
}
