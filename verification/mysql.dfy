/** The two decision rules of procsql.py outside the log analysis: which
    rows of MySQL's process list are shown and how, and what the command line
    asks for given the optional `--log`, `--mysql-user` and `--mysql-password`
    values. The connection and the query itself are not modelled; the rows
    arrive as values. */
module MySql {
  import opened Wrappers
  import opened Text

  /** One row of `SHOW FULL PROCESSLIST`, with the columns the report reads;
      `state` and `info` are NULL (None) when the server has none, `info`
      being the statement text. */
  datatype ProcessRow = ProcessRow(
    id: int,
    user: string,
    time: int,
    state: Option<string>,
    command: string,
    info: Option<string>)

  /** One printed line: id, user, time, state and the shortened query */
  datatype QueryLine = QueryLine(id: int, user: string, time: int, state: string, query: string)

  /** What the loop over the rows prints: the lines, in order, and whether it
      stopped at a row it could not format */
  datatype Listing = Listing(lines: seq<QueryLine>, aborted: bool)

  /** Longest query text printed */
  const QueryWidth: nat := 55

  /** A row is printed unless the session sleeps or runs no statement */
  predicate Shown(p: ProcessRow) {
    p.command != "Sleep" && p.info.Some?
  }

  /** A shown row whose state is NULL: formatting None with a width raises
      a TypeError, which the handler for database errors does not catch, so
      the listing stops there. */
  predicate Unprintable(p: ProcessRow) {
    Shown(p) && p.state.None?
  }

  function QueryLineOf(p: ProcessRow): (q: QueryLine)
    requires p.info.Some? && p.state.Some?
    ensures q.query <= p.info.value
    ensures |q.query| == if |p.info.value| < QueryWidth then |p.info.value| else QueryWidth
    ensures q.id == p.id && q.user == p.user && q.time == p.time && q.state == p.state.value
  {
    QueryLine(p.id, p.user, p.time, p.state.value, Take(p.info.value, QueryWidth))
  }

  /** The lines printed for the fetched rows, in their order, up to the first
      unprintable row */
  function ActiveQueries(rows: seq<ProcessRow>): (out: Listing)
    ensures |out.lines| <= |rows|
  {
    if |rows| == 0 then Listing([], false)
    else if Unprintable(rows[0]) then Listing([], true)
    else
      var rest := ActiveQueries(rows[1..]);
      Listing((if Shown(rows[0]) then [QueryLineOf(rows[0])] else []) + rest.lines, rest.aborted)
  }

  /** The report is built row by row: the rows after an unprintable one add
      nothing, and otherwise the lines of the second part follow those of the
      first. */
  lemma {:induction false} ActiveQueriesConcat(a: seq<ProcessRow>, b: seq<ProcessRow>)
    ensures ActiveQueries(a + b)
         == if ActiveQueries(a).aborted then ActiveQueries(a)
            else Listing(ActiveQueries(a).lines + ActiveQueries(b).lines, ActiveQueries(b).aborted)
  {
    if |a| > 0 {
      assert (a + b)[0] == a[0];
      assert (a + b)[1..] == a[1..] + b;
      ActiveQueriesConcat(a[1..], b);
    } else {
      assert a + b == b;
    }
  }

  /** A single row yields its line when it is shown and printable, stops the
      listing when it is unprintable, and yields nothing otherwise */
  lemma ActiveQueriesSingle(p: ProcessRow)
    ensures Unprintable(p) ==> ActiveQueries([p]) == Listing([], true)
    ensures Shown(p) && p.state.Some? ==> ActiveQueries([p]) == Listing([QueryLineOf(p)], false)
    ensures !Shown(p) ==> ActiveQueries([p]) == Listing([], false)
  {
    assert [p][1..] == [];
  }

  /** The number of lines is the number of shown rows */
  function CountShown(rows: seq<ProcessRow>): nat {
    if |rows| == 0 then 0 else (if Shown(rows[0]) then 1 else 0) + CountShown(rows[1..])
  }

  /** The listing stops exactly when some row is unprintable; when it does
      not, there is one line per shown row. */
  lemma {:induction false} ActiveQueriesCount(rows: seq<ProcessRow>)
    ensures ActiveQueries(rows).aborted <==> exists i :: 0 <= i < |rows| && Unprintable(rows[i])
    ensures !ActiveQueries(rows).aborted ==> |ActiveQueries(rows).lines| == CountShown(rows)
    ensures |ActiveQueries(rows).lines| <= CountShown(rows)
  {
    if |rows| > 0 {
      ActiveQueriesCount(rows[1..]);
      if !Unprintable(rows[0]) {
        assert (exists i :: 0 <= i < |rows| && Unprintable(rows[i]))
           <==> (exists i :: 0 <= i < |rows| - 1 && Unprintable(rows[1..][i])) by {
          forall i | 0 <= i < |rows| - 1 ensures rows[1..][i] == rows[i + 1] {}
          if exists i :: 0 <= i < |rows| && Unprintable(rows[i]) {
            var i :| 0 <= i < |rows| && Unprintable(rows[i]);
            assert i > 0 && Unprintable(rows[1..][i - 1]);
          }
        }
      }
    }
  }

  /** Python truthiness of an optional argument: given and non-empty */
  predicate Given(arg: Option<string>) {
    arg.Some? && |arg.value| > 0
  }

  const CredentialsMessage: string :=
    "Error: Both --mysql-user and --mysql-password are required for MySQL check"

  /** What the command line does about the database */
  datatype DbAction =
    | CheckProcesses(user: string, password: string)
    | CredentialsError(message: string)
    | NoDbAction

  function DbDecision(user: Option<string>, password: Option<string>): (a: DbAction)
    ensures a.CheckProcesses? <==> Given(user) && Given(password)
    ensures a.CredentialsError? <==> (Given(user) != Given(password))
    ensures a.NoDbAction? <==> !Given(user) && !Given(password)
    ensures a.CheckProcesses? ==> a.user == user.value && a.password == password.value
    ensures a.CredentialsError? ==> a.message == CredentialsMessage
  {
    if Given(user) && Given(password) then CheckProcesses(user.value, password.value)
    else if Given(user) || Given(password) then CredentialsError(CredentialsMessage)
    else NoDbAction
  }

  /** Everything the command line asks for: the log to analyse, if any,
      and the database action; the two are independent. */
  datatype Plan = Plan(logPath: Option<string>, db: DbAction)

  function CommandPlan(log: Option<string>, user: Option<string>, password: Option<string>): (p: Plan)
    ensures p.logPath.Some? <==> Given(log)
    ensures p.logPath.Some? ==> p.logPath == log
    ensures p.db == DbDecision(user, password)
  {
    Plan(if Given(log) then log else None, DbDecision(user, password))
  }
}
