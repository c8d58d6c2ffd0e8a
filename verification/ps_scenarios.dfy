/** Worked example for the process lister: two process records reported in
    both orders. */
module PsScenarios {
  import opened Wrappers
  import opened Text
  import opened Ranking
  import opened PsParse
  import opened PsReport

  /** The records of `1 root 0.5 1.0 init` and `2 bob 3.0 0.2 sleep` */
  const InitProc: Process := Process("1", "root", 0.5, 1.0, "init")

  const SleepProc: Process := Process("2", "bob", 3.0, 0.2, "sleep")

  lemma SortedByCpu()
    ensures SortedBy([InitProc, SleepProc], Cpu) == [SleepProc, InitProc]
  {
    SortedByUnique([InitProc, SleepProc], Cpu, [SleepProc, InitProc]);
  }

  lemma SortedByMem()
    ensures SortedBy([InitProc, SleepProc], Mem) == [InitProc, SleepProc]
  {
    SortedByIdempotent([InitProc, SleepProc], Mem);
  }

  /** A command shorter than the width is shown whole */
  lemma ShortCommand(p: Process, k: SortKey)
    requires |p.cmd| <= CommandWidth
    ensures RowFor(p, k).cmd == p.cmd
  {
  }

  lemma CpuTable()
    ensures Table([InitProc, SleepProc], Cpu)
         == [ProcRow("2", "bob", 3.0, 0.2, "sleep"), ProcRow("1", "root", 0.5, 1.0, "init")]
  {
    SortedByCpu();
    ShortCommand(InitProc, Cpu);
    ShortCommand(SleepProc, Cpu);
  }

  lemma MemTable()
    ensures Table([InitProc, SleepProc], Mem)
         == [ProcRow("1", "root", 1.0, 1.0, "init"), ProcRow("2", "bob", 0.2, 0.2, "sleep")]
  {
    SortedByMem();
    ShortCommand(InitProc, Mem);
    ShortCommand(SleepProc, Mem);
  }

  /** The cpu table lists the busier `sleep` first and shows its cpu value;
      the memory table lists `init` first and shows mem in both columns. */
  lemma TwoProcessReport()
    ensures Report([InitProc, SleepProc]) == Tables(
      [ProcRow("2", "bob", 3.0, 0.2, "sleep"), ProcRow("1", "root", 0.5, 1.0, "init")],
      [ProcRow("1", "root", 1.0, 1.0, "init"), ProcRow("2", "bob", 0.2, 0.2, "sleep")])
  {
    CpuTable();
    MemTable();
  }

  /** `splitlines` also breaks at "\r\n", which the join writes as "\n",
      so not every split text is a joined one */
  lemma SplitLinesCrLf()
    ensures SplitLines("a\r\nb") == ["a", "b"]
    ensures JoinLines(["a", "b"]) == "a\nb\n"
  {
    var text := "a\r\nb";
    assert text[1..] == "\r\nb" && text[1..][2..] == "b";
    assert "" + ['a'] == "a" && "" + ['b'] == "b";
    assert LineFrom("b", "") == ["b"];
    assert LineFrom(text[1..], "a") == ["a"] + SplitLines("b");
    assert SplitLines(text) == LineFrom(text[1..], "a");
  }
}
