/** The parsing half of proc.py's `get_processes`: the text printed by
    `ps -eo pid,user,%cpu,%mem,args` is split into lines, the header line is
    dropped, and every remaining line is split on whitespace into at most five
    fields, the last taking the rest of the line. A line yields a record when
    it has five fields and the third and fourth read as numbers; any other
    line is skipped. */
module PsParse {
  import opened Wrappers
  import opened Text
  import opened Sequences

  /** Python's line boundaries for str.splitlines */
  predicate IsLineBreak(c: char) {
    var n := c as int;
    || 0x0A <= n <= 0x0D
    || 0x1C <= n <= 0x1E
    || n == 0x85 || n == 0x2028 || n == 0x2029
  }

  predicate NotLineBreak(c: char) {
    !IsLineBreak(c)
  }

  /** Python's str.splitlines(): a final line boundary does not start another
      line, and "\r\n" counts as one boundary. */
  function SplitLines(s: string): (ls: seq<string>)
    ensures |ls| == 0 <==> |s| == 0
    ensures forall l <- ls :: AllSatisfy(l, NotLineBreak)
    decreases |s|, 1
  {
    if |s| == 0 then [] else LineFrom(s, "")
  }

  /** The lines of s, the first of which already holds the characters cur */
  function LineFrom(s: string, cur: string): (ls: seq<string>)
    requires AllSatisfy(cur, NotLineBreak)
    ensures |ls| > 0
    ensures forall l <- ls :: AllSatisfy(l, NotLineBreak)
    decreases |s|, 0
  {
    if |s| == 0 then [cur]
    else if IsLineBreak(s[0]) then
      var next := if s[0] == '\r' && |s| > 1 && s[1] == '\n' then s[2..] else s[1..];
      [cur] + SplitLines(next)
    else
      AllSatisfyConcat(cur, [s[0]], NotLineBreak);
      LineFrom(s[1..], cur + [s[0]])
  }

  /** Lines terminated by "\n" */
  function JoinLines(ls: seq<string>): string {
    if |ls| == 0 then "" else ls[0] + ("\n" + JoinLines(ls[1..]))
  }

  /** Characters that are not line boundaries extend the current line */
  lemma {:induction false} LineFromThrough(u: string, after: string, cur: string)
    requires AllSatisfy(cur, NotLineBreak) && AllSatisfy(u, NotLineBreak)
    ensures AllSatisfy(cur + u, NotLineBreak)
    ensures LineFrom(u + after, cur) == LineFrom(after, cur + u)
    decreases |u|
  {
    AllSatisfyConcat(cur, u, NotLineBreak);
    if |u| == 0 {
      assert u + after == after && cur + u == cur;
    } else {
      assert (u + after)[0] == u[0];
      assert (u + after)[1..] == u[1..] + after;
      assert (cur + [u[0]]) + u[1..] == cur + u;
      AllSatisfyConcat(cur, [u[0]], NotLineBreak);
      LineFromThrough(u[1..], after, cur + [u[0]]);
    }
  }

  /** Splitting newline-terminated lines gives the lines back */
  lemma {:induction false} SplitLinesJoin(ls: seq<string>)
    requires forall l <- ls :: AllSatisfy(l, NotLineBreak)
    ensures SplitLines(JoinLines(ls)) == ls
  {
    if |ls| > 0 {
      var rest := JoinLines(ls[1..]);
      assert ls[0] in ls;
      LineFromThrough(ls[0], "\n" + rest, "");
      assert "" + ls[0] == ls[0];
      assert ("\n" + rest)[1..] == rest;
      SplitLinesJoin(ls[1..]);
      assert ls == [ls[0]] + ls[1..];
    }
  }

  /** Python's str.split(maxsplit=m): leading whitespace is skipped, at most m
      whitespace-free fields are cut off, and the rest of the line after
      further whitespace, trailing whitespace included, is the last part.
      Every part starts with a non-whitespace character, and the parts
      before the last possible one hold no whitespace at all. */
  function SplitWs(s: string, maxsplit: nat): (parts: seq<string>)
    ensures |parts| <= maxsplit + 1
    ensures forall i :: 0 <= i < |parts| ==> |parts[i]| > 0 && NotSpace(parts[i][0])
    ensures forall i :: 0 <= i < |parts| && i < maxsplit ==> IsWord(parts[i])
    decreases |s|, 1
  {
    if |s| == 0 then []
    else if IsSpace(s[0]) then SplitWs(s[1..], maxsplit)
    else if maxsplit == 0 then [s]
    else FieldFrom(s[1..], maxsplit, [s[0]])
  }

  /** The parts of s, the first of which is a field already holding cur */
  function FieldFrom(s: string, maxsplit: nat, cur: string): (parts: seq<string>)
    requires maxsplit > 0 && IsWord(cur)
    ensures 0 < |parts| <= maxsplit + 1 && cur <= parts[0]
    ensures forall i :: 0 <= i < |parts| ==> |parts[i]| > 0 && NotSpace(parts[i][0])
    ensures forall i :: 0 <= i < |parts| && i < maxsplit ==> IsWord(parts[i])
    decreases |s|, 0
  {
    if |s| == 0 then [cur]
    else if IsSpace(s[0]) then
      var rest := SplitWs(s[1..], maxsplit - 1);
      var parts := [cur] + rest;
      assert forall i :: 1 <= i < |parts| ==> parts[i] == rest[i - 1];
      parts
    else
      AllSatisfyConcat(cur, [s[0]], NotSpace);
      FieldFrom(s[1..], maxsplit, cur + [s[0]])
  }

  /** Fields with the separator seps[i] between fields i and i + 1 */
  function JoinWith(toks: seq<string>, seps: seq<string>): string
    requires |toks| == 0 || |seps| == |toks| - 1
  {
    if |toks| == 0 then ""
    else if |toks| == 1 then toks[0]
    else toks[0] + (seps[0] + JoinWith(toks[1..], seps[1..]))
  }

  /** Separators as `ps` pads its columns: non-empty runs of whitespace */
  predicate Gaps(seps: seq<string>) {
    forall i :: 0 <= i < |seps| ==> |seps[i]| > 0 && AllSatisfy(seps[i], IsSpace)
  }

  /** Fields that splitting with the given maxsplit reproduces: the first
      maxsplit are whitespace-free, a last one beyond them merely starts with
      a non-whitespace character. */
  predicate Splittable(toks: seq<string>, maxsplit: nat) {
    && |toks| <= maxsplit + 1
    && (forall i :: 0 <= i < |toks| && i < maxsplit ==> IsWord(toks[i]))
    && (|toks| == maxsplit + 1 ==> |toks[maxsplit]| > 0 && NotSpace(toks[maxsplit][0]))
  }

  /** Text made only of whitespace holds no field */
  lemma {:induction false} SplitWsSpaces(t: string, maxsplit: nat)
    requires AllSatisfy(t, IsSpace)
    ensures SplitWs(t, maxsplit) == []
    decreases |t|
  {
    if |t| > 0 {
      assert forall i :: 0 <= i < |t| - 1 ==> t[1..][i] == t[i + 1];
      SplitWsSpaces(t[1..], maxsplit);
    }
  }

  /** Whitespace after the current field ends it and adds nothing more */
  lemma FieldFromSpaces(t: string, maxsplit: nat, cur: string)
    requires maxsplit > 0 && IsWord(cur) && AllSatisfy(t, IsSpace)
    ensures FieldFrom(t, maxsplit, cur) == [cur]
  {
    if |t| > 0 {
      assert forall i :: 0 <= i < |t| - 1 ==> t[1..][i] == t[i + 1];
      SplitWsSpaces(t[1..], maxsplit - 1);
    }
  }

  /** Leading whitespace is skipped before the first field */
  lemma {:induction false} SplitWsLead(lead: string, t: string, maxsplit: nat)
    requires AllSatisfy(lead, IsSpace)
    requires |t| == 0 || NotSpace(t[0])
    ensures SplitWs(lead + t, maxsplit) == SplitWs(t, maxsplit)
    decreases |lead|
  {
    if |lead| == 0 {
      assert lead + t == t;
    } else {
      assert (lead + t)[0] == lead[0];
      assert (lead + t)[1..] == lead[1..] + t;
      assert forall i :: 0 <= i < |lead| - 1 ==> lead[1..][i] == lead[i + 1];
      SplitWsLead(lead[1..], t, maxsplit);
    }
  }

  /** The characters of a field are gathered up to whitespace or the end */
  lemma {:induction false} FieldFromThrough(u: string, after: string, maxsplit: nat, cur: string)
    requires maxsplit > 0 && IsWord(cur) && AllSatisfy(u, NotSpace)
    ensures IsWord(cur + u)
    ensures FieldFrom(u + after, maxsplit, cur) == FieldFrom(after, maxsplit, cur + u)
    decreases |u|
  {
    AllSatisfyConcat(cur, u, NotSpace);
    if |u| == 0 {
      assert u + after == after && cur + u == cur;
    } else {
      assert (u + after)[0] == u[0];
      assert (u + after)[1..] == u[1..] + after;
      assert (cur + [u[0]]) + u[1..] == cur + u;
      AllSatisfyConcat(cur, [u[0]], NotSpace);
      assert forall i :: 0 <= i < |u| - 1 ==> u[1..][i] == u[i + 1];
      FieldFromThrough(u[1..], after, maxsplit, cur + [u[0]]);
    }
  }

  /** A whitespace-free word is cut off as the first field */
  lemma SplitWsWord(w: string, after: string, maxsplit: nat)
    requires IsWord(w) && maxsplit > 0
    ensures SplitWs(w + after, maxsplit) == FieldFrom(after, maxsplit, w)
  {
    assert (w + after)[0] == w[0];
    assert (w + after)[1..] == w[1..] + after;
    assert forall i :: 0 <= i < |w| - 1 ==> w[1..][i] == w[i + 1];
    FieldFromThrough(w[1..], after, maxsplit, [w[0]]);
    assert [w[0]] + w[1..] == w;
  }

  lemma SplittableTail(toks: seq<string>, maxsplit: nat)
    requires Splittable(toks, maxsplit) && |toks| > 0 && maxsplit > 0
    ensures Splittable(toks[1..], maxsplit - 1)
  {
    var rest := toks[1..];
    forall i | 0 <= i < |rest| && i < maxsplit - 1 ensures IsWord(rest[i]) {
      assert rest[i] == toks[i + 1];
    }
  }

  /** A word and a run of whitespace are cut off as one field */
  lemma SplitWsGap(w: string, gap: string, tail: string, maxsplit: nat)
    requires IsWord(w) && maxsplit > 0
    requires |gap| > 0 && AllSatisfy(gap, IsSpace)
    requires |tail| == 0 || NotSpace(tail[0])
    ensures SplitWs(w + (gap + tail), maxsplit) == [w] + SplitWs(tail, maxsplit - 1)
  {
    SplitWsWord(w, gap + tail, maxsplit);
    assert (gap + tail)[0] == gap[0] && IsSpace(gap[0]);
    assert (gap + tail)[1..] == gap[1..] + tail;
    assert forall i :: 0 <= i < |gap| - 1 ==> gap[1..][i] == gap[i + 1];
    SplitWsLead(gap[1..], tail, maxsplit - 1);
  }

  /** A last field followed by whitespace is split off alone */
  lemma SplitWsOne(w: string, trail: string, maxsplit: nat)
    requires |w| > 0 && NotSpace(w[0]) && (maxsplit > 0 ==> IsWord(w))
    requires AllSatisfy(trail, IsSpace) && (|trail| == 0 || maxsplit > 0)
    ensures SplitWs(w + trail, maxsplit) == [w]
  {
    if maxsplit == 0 {
      assert w + trail == w;
    } else {
      SplitWsWord(w, trail, maxsplit);
      FieldFromSpaces(trail, maxsplit, w);
    }
  }

  lemma GapsTail(seps: seq<string>)
    requires Gaps(seps) && |seps| > 0
    ensures Gaps(seps[1..])
  {
    forall i | 0 <= i < |seps| - 1 ensures |seps[1..][i]| > 0 && AllSatisfy(seps[1..][i], IsSpace) {
      assert seps[1..][i] == seps[i + 1];
    }
  }

  /** Splitting fields joined by whitespace runs, followed by whitespace
      when there is room for no further field, returns the fields. */
  lemma {:induction false} SplitWsJoinWith(toks: seq<string>, seps: seq<string>, trail: string, maxsplit: nat)
    requires Splittable(toks, maxsplit) && |toks| > 0 && |seps| == |toks| - 1 && Gaps(seps)
    requires AllSatisfy(trail, IsSpace) && (|trail| == 0 || |toks| <= maxsplit)
    ensures SplitWs(JoinWith(toks, seps) + trail, maxsplit) == toks
    decreases |toks|
  {
    if |toks| == 1 {
      assert JoinWith(toks, seps) == toks[0] && toks == [toks[0]];
      SplitWsOne(toks[0], trail, maxsplit);
    } else {
      SplittableTail(toks, maxsplit);
      GapsTail(seps);
      SplitWsJoinWith(toks[1..], seps[1..], trail, maxsplit - 1);
      SplitWsJoinStep(toks, seps, trail, maxsplit);
    }
  }

  /** The first field and the gap after it are split off, and the rest of
      the line splits on its own. */
  lemma SplitWsJoinStep(toks: seq<string>, seps: seq<string>, trail: string, maxsplit: nat)
    requires Splittable(toks, maxsplit) && |toks| > 1 && |seps| == |toks| - 1 && Gaps(seps)
    requires SplitWs(JoinWith(toks[1..], seps[1..]) + trail, maxsplit - 1) == toks[1..]
    ensures SplitWs(JoinWith(toks, seps) + trail, maxsplit) == toks
  {
    var w, gap, tail := toks[0], seps[0], JoinWith(toks[1..], seps[1..]) + trail;
    assert JoinWith(toks, seps) + trail == w + (gap + tail);
    assert toks[1..][0] == toks[1];
    assert tail[0] == toks[1][0];
    SplitWsGap(w, gap, tail, maxsplit);
    assert toks == [w] + toks[1..];
  }

  /** A line of such fields, after leading and before trailing whitespace,
      splits into exactly those fields; a line of whitespace has none. */
  lemma SplitWsJoin(lead: string, toks: seq<string>, seps: seq<string>, trail: string, maxsplit: nat)
    requires AllSatisfy(lead, IsSpace) && AllSatisfy(trail, IsSpace)
    requires Splittable(toks, maxsplit) && (|toks| == 0 || |seps| == |toks| - 1) && Gaps(seps)
    requires |trail| == 0 || |toks| <= maxsplit
    ensures SplitWs(lead + JoinWith(toks, seps) + trail, maxsplit) == toks
  {
    if |toks| > 0 {
      SplitWsJoinLead(lead, toks, seps, trail, maxsplit);
    } else {
      var join := JoinWith(toks, seps);
      assert join == "";
      assert lead + join == lead;
      SplitWsBlank(lead, trail, maxsplit);
    }
  }

  lemma SplitWsBlank(lead: string, trail: string, maxsplit: nat)
    requires AllSatisfy(lead, IsSpace) && AllSatisfy(trail, IsSpace)
    ensures SplitWs(lead + trail, maxsplit) == []
  {
    AllSatisfyConcat(lead, trail, IsSpace);
    SplitWsSpaces(lead + trail, maxsplit);
  }

  lemma SplitWsJoinLead(lead: string, toks: seq<string>, seps: seq<string>, trail: string, maxsplit: nat)
    requires AllSatisfy(lead, IsSpace) && AllSatisfy(trail, IsSpace)
    requires Splittable(toks, maxsplit) && |toks| > 0 && |seps| == |toks| - 1 && Gaps(seps)
    requires |trail| == 0 || |toks| <= maxsplit
    ensures SplitWs(lead + JoinWith(toks, seps) + trail, maxsplit) == toks
  {
    var body := JoinWith(toks, seps) + trail;
    JoinWithHead(toks, seps, trail);
    SplitWsLead(lead, body, maxsplit);
    SplitWsJoinWith(toks, seps, trail, maxsplit);
    assert lead + JoinWith(toks, seps) + trail == lead + body;
  }

  /** A joined line starts with the first character of its first field */
  lemma JoinWithHead(toks: seq<string>, seps: seq<string>, trail: string)
    requires |toks| > 0 && |seps| == |toks| - 1 && |toks[0]| > 0
    ensures |JoinWith(toks, seps) + trail| > 0 && (JoinWith(toks, seps) + trail)[0] == toks[0][0]
  {
  }

  function Pow10(n: nat): (p: nat)
    ensures p >= 1
  {
    if n == 0 then 1 else 10 * Pow10(n - 1)
  }

  function Signed(negative: bool, v: real): real {
    if negative then -v else v
  }

  /** The characters a decimal literal is made of, apart from its sign */
  predicate IsNumberChar(c: char) {
    IsDigit(c) || c == '.'
  }

  /** An unsigned decimal literal: digits, and an optional point followed by
      digits, with a digit somewhere */
  function ParseUnsigned(s: string): (r: Option<real>)
    ensures r.Some? ==> |s| > 0 && r.value >= 0.0
    ensures r.Some? ==> AllSatisfy(s, IsNumberChar)
  {
    var ip := RunLen(s, IsDigit);
    var whole := DecimalValue(s[..ip]) as real;
    var rest := s[ip..];
    if |rest| == 0 then
      if ip == 0 then None else Some(whole)
    else if rest[0] != '.' then None
    else
      var frac := rest[1..];
      var fp := RunLen(frac, IsDigit);
      if fp < |frac| || ip + fp == 0 then None
      else
        assert AllSatisfy(s, IsNumberChar) by {
          assert frac[..fp] == frac;
          forall i | 0 <= i < |s| ensures IsNumberChar(s[i]) {
            if i < ip {
              assert s[i] == s[..ip][i];
            } else if i > ip {
              assert s[i] == frac[i - ip - 1];
            }
          }
        }
        Some(whole + DecimalValue(frac[..fp]) as real / Pow10(fp) as real)
  }

  /** Python's float() on a decimal literal with an optional sign */
  function ParseDecimal(s: string): (r: Option<real>)
    ensures r.Some? ==> |s| > 0
    ensures r.Some? ==> forall i :: 0 < i < |s| ==> IsNumberChar(s[i])
    ensures r.Some? ==> IsNumberChar(s[0]) || s[0] == '+' || s[0] == '-'
  {
    if |s| > 0 && (s[0] == '+' || s[0] == '-') then
      var v :- ParseUnsigned(s[1..]);
      Some(Signed(s[0] == '-', v))
    else ParseUnsigned(s)
  }

  /** A numeral reads as its value */
  lemma ParseDecimalNat(n: nat)
    ensures ParseDecimal(NatToString(n)) == Some(n as real)
  {
    var s := NatToString(n);
    RunLenOf(s, "", IsDigit);
    assert s + "" == s;
    assert s[..|s|] == s;
  }

  /** A value printed with one decimal place, as ps prints %CPU and %MEM,
      reads back as that value. */
  lemma ParseDecimalTenths(whole: nat, tenth: nat)
    requires tenth < 10
    ensures ParseDecimal(NatToString(whole) + "." + [DigitChar(tenth)])
         == Some(whole as real + tenth as real / 10.0)
  {
    var w := NatToString(whole);
    var f := [DigitChar(tenth)];
    var s := w + "." + f;
    assert s == w + (['.'] + f);
    assert s[0] == w[0] && IsDigit(s[0]);
    RunLenOf(w, ['.'] + f, IsDigit);
    assert RunLen(s, IsDigit) == |w|;
    assert s[..|w|] == w;
    assert s[|w|..] == ['.'] + f;
    assert (['.'] + f)[1..] == f;
    RunLenOf(f, "", IsDigit);
    assert f + "" == f;
    assert RunLen(f, IsDigit) == 1;
    assert f[..1] == f;
    assert DecimalValue(f) == tenth by {
      assert f[..0] == [];
    }
    assert Pow10(1) == 10;
    assert ParseUnsigned(s) == Some(whole as real + tenth as real / 10.0);
  }

  /** A process record: pid and user as printed, the two percentages as
      numbers, and the command with its internal whitespace. */
  datatype Process = Process(pid: string, user: string, cpu: real, mem: real, cmd: string)

  /** The body of the loop over the data lines */
  function ParseProcessLine(line: string): (r: Option<Process>)
    ensures r.Some? ==> IsWord(r.value.pid) && IsWord(r.value.user) && |r.value.cmd| > 0
  {
    var parts := SplitWs(line, 4);
    if |parts| < 5 then None
    else
      assert IsWord(parts[0]) && IsWord(parts[1]) && |parts[4]| > 0;
      var cpu :- ParseDecimal(parts[2]);
      var mem :- ParseDecimal(parts[3]);
      Some(Process(parts[0], parts[1], cpu, mem, parts[4]))
  }

  /** A line of five fields, separated and preceded by whitespace as `ps`
      pads its columns, yields the record of those fields exactly when the
      third and fourth read as numbers. The command keeps its own inner and
      trailing whitespace. */
  lemma ParseProcessLineOf(lead: string, pid: string, user: string, cpu: string, mem: string, cmd: string, seps: seq<string>)
    requires AllSatisfy(lead, IsSpace) && |seps| == 4 && Gaps(seps)
    requires IsWord(pid) && IsWord(user) && IsWord(cpu) && IsWord(mem)
    requires |cmd| > 0 && NotSpace(cmd[0])
    ensures ParseProcessLine(lead + JoinWith([pid, user, cpu, mem, cmd], seps))
         == if ParseDecimal(cpu).Some? && ParseDecimal(mem).Some?
            then Some(Process(pid, user, ParseDecimal(cpu).value, ParseDecimal(mem).value, cmd))
            else None
  {
    var toks := [pid, user, cpu, mem, cmd];
    var line := lead + JoinWith(toks, seps);
    assert Splittable(toks, 4);
    SplitWsJoin(lead, toks, seps, "", 4);
    assert line + "" == line;
  }

  /** A line of fewer than five fields, whatever whitespace surrounds and
      separates them, is rejected. */
  lemma ParseProcessLineShort(lead: string, toks: seq<string>, seps: seq<string>, trail: string)
    requires AllSatisfy(lead, IsSpace) && AllSatisfy(trail, IsSpace)
    requires |toks| < 5 && forall i :: 0 <= i < |toks| ==> IsWord(toks[i])
    requires (|toks| == 0 || |seps| == |toks| - 1) && Gaps(seps)
    ensures ParseProcessLine(lead + JoinWith(toks, seps) + trail) == None
  {
    SplitWsJoin(lead, toks, seps, trail, 4);
  }

  /** The records of the given lines, in order */
  function ParseAll(lines: seq<string>): (ps: seq<Process>)
    ensures |ps| <= |lines|
  {
    FilterMap(lines, ParseProcessLine)
  }

  /** Records are collected line by line: a rejected line contributes
      nothing and parsing continues after it. */
  lemma ParseAllConcat(a: seq<string>, b: seq<string>)
    ensures ParseAll(a + b) == ParseAll(a) + ParseAll(b)
  {
    FilterMapConcat(a, b, ParseProcessLine);
  }

  lemma ParseAllSingle(line: string)
    ensures ParseProcessLine(line).None? ==> ParseAll([line]) == []
    ensures ParseProcessLine(line).Some? ==> ParseAll([line]) == [ParseProcessLine(line).value]
  {
    FilterMapSingle(line, ParseProcessLine);
  }

  lemma ParseAllStep(lines: seq<string>, i: nat)
    requires 1 <= i < |lines|
    ensures ParseAll(lines[1..i + 1]) == ParseAll(lines[1..i]) + Emit(ParseProcessLine(lines[i]))
  {
    assert lines[1..i + 1] == lines[1..i] + [lines[i]];
    FilterMapConcat(lines[1..i], [lines[i]], ParseProcessLine);
    FilterMapSingle(lines[i], ParseProcessLine);
  }

  /** When every line is well formed there is one record per line, in order */
  lemma ParseAllAccepted(lines: seq<string>)
    requires forall i :: 0 <= i < |lines| ==> ParseProcessLine(lines[i]).Some?
    ensures |ParseAll(lines)| == |lines|
    ensures forall i :: 0 <= i < |lines| ==> ParseAll(lines)[i] == ParseProcessLine(lines[i]).value
  {
    FilterMapTotal(lines, ParseProcessLine);
  }

  /** The lines after the header; no lines at all when the output is empty */
  function DataLines(output: string): (ls: seq<string>)
    ensures |output| == 0 ==> ls == []
  {
    var lines := SplitLines(output);
    if |lines| == 0 then [] else lines[1..]
  }

  /** The first line is a header whatever it holds: it is never parsed */
  lemma HeaderSkipped(header: string, data: seq<string>)
    requires AllSatisfy(header, NotLineBreak)
    requires forall l <- data :: AllSatisfy(l, NotLineBreak)
    ensures DataLines(JoinLines([header] + data)) == data
  {
    var ls := [header] + data;
    assert ls[1..] == data;
    SplitLinesJoin(ls);
  }

  /** `get_processes`; None stands for `ps` exiting with a non-zero status */
  method GetProcesses(psOutput: Option<string>) returns (procs: seq<Process>)
    ensures psOutput.None? ==> procs == []
    ensures psOutput.Some? ==> procs == ParseAll(DataLines(psOutput.value))
  {
    if psOutput.None? {
      return [];
    }
    var lines := SplitLines(psOutput.value);
    if |lines| == 0 {
      return [];
    }
    procs := [];
    var i := 1;
    while i < |lines|
      invariant 1 <= i <= |lines|
      invariant procs == ParseAll(lines[1..i])
    {
      ParseAllStep(lines, i);
      var r := ParseProcessLine(lines[i]);
      if r.Some? {
        procs := procs + [r.value];
      }
      i := i + 1;
    }
    assert lines[1..i] == lines[1..];
  }
}
