/** The `Process` class: a pid kept as text and a CPU share computed once,
    when the process is constructed, from its stat record, the system uptime
    and the clock-tick rate. The rate (`sysconf(_SC_CLK_TCK)` in the source)
    is a parameter. */
module Processes {
  import opened Results
  import opened Text
  import opened CppInt
  import SystemParser
  import opened ProcessParser

  /** `std::map::operator[]` on the counter map: 0 for a key not present. */
  function Counter(m: map<string, int>, key: string): (v: int) {
    if key in m then m[key] else 0
  }

  /** Ticks the process and its waited-for children spent in user and kernel code. */
  function TotalTime(m: map<string, int>): (ticks: int) {
    Counter(m, KeyUtime) + Counter(m, KeyStime) + Counter(m, KeyCutime) + Counter(m, KeyCstime)
  }

  /** The share of one CPU: whole seconds of CPU time over the whole seconds
      elapsed since the process started, or 0 when none have. Both tick counts
      are truncated to whole seconds by `long` division before the final,
      floating-point one. */
  function Share(total: int, start: int, uptime: int, clk: int): (f: real)
    requires clk != 0
    ensures uptime == Quot(start, clk) ==> f == 0.0
    ensures uptime != Quot(start, clk) ==> f * (uptime - Quot(start, clk)) as real == Quot(total, clk) as real
    ensures total >= 0 && clk > 0 && uptime > Quot(start, clk) ==> f >= 0.0
  {
    var seconds := uptime - Quot(start, clk);
    if seconds == 0 then 0.0
    else
      Ratio(Quot(total, clk), seconds)
  }

  /** The final, floating-point division of whole CPU seconds by whole
      elapsed seconds. */
  function Ratio(cpuSeconds: int, seconds: int): (f: real)
    requires seconds != 0
    ensures f * seconds as real == cpuSeconds as real
    ensures cpuSeconds >= 0 && seconds > 0 ==> f >= 0.0
  {
    cpuSeconds as real / seconds as real
  }

  /** `Process::CpuUtilization`: the counters are read first, so a counter
      `std::stol` refuses throws whatever the rate; the uptime is read only
      when the rate is not 0. */
  function CpuUtilization(stat: File, uptime: File, clk: int): (r: Outcome<real>)
    ensures r.Returns? || r.Throws?
    ensures r.Throws? <==> ProcessUtilData(stat).Throws? || (clk != 0 && SystemParser.UpTime(uptime).Throws?)
    ensures r.Returns? && clk == 0 ==> r.value == 0.0
    ensures r.Returns? && |StatTokens(stat)| <= 22 ==> r.value == 0.0
  {
    var data := ProcessUtilData(stat);
    if !data.Returns? then Failed(data)
    else if clk == 0 then Returns(0.0)
    else
      var up := SystemParser.UpTime(uptime);
      if !up.Returns? then Failed(up) else Returns(CounterShare(data.value, up.value, clk))
  }

  /** The share of the counters in `m`; every missing counter counts as 0,
      so an empty map has share 0 whatever the uptime. */
  function CounterShare(m: map<string, int>, uptime: int, clk: int): (f: real)
    requires clk != 0
    ensures m == map[] ==> f == 0.0
  {
    QuotOfZero(clk);
    Share(TotalTime(m), Counter(m, KeyStarttime), uptime, clk)
  }

  /** The counters of a full map: CPU time is the sum of the four tick
      counters, and the start time is read back as stored. */
  lemma CountersOfMap(m: map<string, int>, u: int, s: int, cu: int, cs: int, st: int)
    requires m == map[KeyUtime := u, KeyStime := s, KeyCutime := cu, KeyCstime := cs, KeyStarttime := st]
    ensures TotalTime(m) == u + s + cu + cs && Counter(m, KeyStarttime) == st
  {
    assert KeyUtime[0] == 'u' && KeyStime[0] == 's' && KeyCutime[0] == 'c' && KeyCstime[0] == 'c';
    assert KeyStime[1] == 't' && KeyStarttime[1] == 't' && KeyCutime[1] == 'u' && KeyCstime[1] == 's';
    assert |KeyStime| == 5 && |KeyStarttime| == 9;
  }

  /** A stat record carrying the counters and an uptime file starting with
      `up` whole seconds give the share of those numbers, `total` being the
      four tick counters added up. */
  lemma CpuUtilizationOfFiles(ts: seq<string>, later: seq<string>, u: int, s: int, cu: int, cs: int, st: int,
                              total: int, up: nat, frac: string, idle: string, later2: seq<string>, clk: int)
    requires AllWords(ts) && CarriesCounters(ts, u, s, cu, cs, st) && total == u + s + cu + cs
    requires AllDigits(frac) && IsWord(idle) && clk != 0
    ensures CpuUtilization(Some([Unwords(ts)] + later),
                           Some([Unwords([NatToString(up) + "." + frac, idle])] + later2), clk)
            == Returns(Share(total, st, up, clk))
  {
    var m := map[KeyUtime := u, KeyStime := s, KeyCutime := cu, KeyCstime := cs, KeyStarttime := st];
    ProcessUtilDataOfRecord(ts, later, u, s, cu, cs, st);
    SystemParser.UpTimeOfUptimeFile(up, frac, idle, later2);
    CountersOfMap(m, u, s, cu, cs, st);
    CpuUtilizationOfReadings(Some([Unwords(ts)] + later),
                             Some([Unwords([NatToString(up) + "." + frac, idle])] + later2), clk, m, total, st, up);
  }

  lemma CpuUtilizationOfReadings(stat: File, uptime: File, clk: int, m: map<string, int>, total: int, start: int, up: int)
    requires ProcessUtilData(stat) == Returns(m) && SystemParser.UpTime(uptime) == Returns(up) && clk != 0
    requires TotalTime(m) == total && Counter(m, KeyStarttime) == start
    ensures CpuUtilization(stat, uptime, clk) == Returns(Share(total, start, up, clk))
  {
  }

  /** Ticks short of a whole second do not count: `n` seconds and `r` more
      ticks give the share of `n` seconds. */
  lemma ShareIgnoresPartialSecond(n: nat, r: nat, start: int, uptime: int, clk: int)
    requires 0 <= r < clk
    ensures Share(n * clk + r, start, uptime, clk) == Share(n * clk, start, uptime, clk)
  {
    QuotOfMultiple(n, r, clk);
    QuotOfMultiple(n, 0, clk);
  }

  /** 150 ticks at 100 Hz over 200 seconds of uptime: one whole second of CPU
      time, so a share of 0.005 rather than 1.5 / 200. */
  lemma ShareOfHundredFiftyTicks()
    ensures Share(150, 0, 200, 100) == 0.005
  {
    QuotOfMultiple(1, 50, 100);
    QuotOfZero(100);
  }

  // ---------------------------------------------------------------------------
  // The Process class

  /** A process: its id as text and the share cached at construction. */
  datatype Process = Process(pid: string, cachedCpu: real)

  /** `Process::UpdateCpuUtilization`: recomputes the cached share; nothing
      else changes. */
  function UpdateCpuUtilization(p: Process, stat: File, uptime: File, clk: int): (r: Outcome<Process>)
    ensures r.Returns? || r.Throws?
    ensures r.Throws? <==> CpuUtilization(stat, uptime, clk).Throws?
    ensures r.Returns? ==> r.value.pid == p.pid && r.value.cachedCpu == CpuUtilization(stat, uptime, clk).value
  {
    var cpu := CpuUtilization(stat, uptime, clk);
    if cpu.Returns? then Returns(p.(cachedCpu := cpu.value)) else Failed(cpu)
  }

  /** `Process::Process(int)`: the id as `std::to_string` writes it, and the
      share computed once from the process's files. */
  function NewProcess(id: int, stat: File, uptime: File, clk: int): (r: Outcome<Process>)
    ensures r.Returns? <==> CpuUtilization(stat, uptime, clk).Returns?
    ensures r.Returns? ==> r.value.pid == IntToString(id)
    ensures r.Returns? ==> r.value.cachedCpu == CpuUtilization(stat, uptime, clk).value
  {
    UpdateCpuUtilization(Process(IntToString(id), 0.0), stat, uptime, clk)
  }

  /** `Process::Pid`: `std::stoi` of the stored id. */
  function Pid(p: Process): (r: Outcome<int>)
    ensures r.Returns? || r.Throws?
    ensures r.Returns? <==> Stol(p.pid).Some?
  {
    match Stol(p.pid)
    case Some(v) => Returns(v)
    case None => Throws
  }

  /** The id a process was constructed with is the id it reports. */
  lemma PidOfNewProcess(id: int, stat: File, uptime: File, clk: int)
    requires NewProcess(id, stat, uptime, clk).Returns?
    ensures Pid(NewProcess(id, stat, uptime, clk).value) == Returns(id)
  {
    StolOfIntToString(id);
  }

  /** The cached share is the one the constructor computed: updating again
      from the same files changes nothing. */
  lemma UpdateOfNewProcess(id: int, stat: File, uptime: File, clk: int)
    requires NewProcess(id, stat, uptime, clk).Returns?
    ensures var p := NewProcess(id, stat, uptime, clk).value;
            UpdateCpuUtilization(p, stat, uptime, clk) == Returns(p)
  {
  }

  /** `Process::operator<`: a process comes first when its share is larger. */
  predicate Less(a: Process, b: Process) {
    a.cachedCpu > b.cachedCpu
  }

  /** `Less` is a strict weak order, as `std::sort` requires: irreflexive,
      transitive, and incomparability (equal shares) is transitive too. */
  lemma LessIsStrictWeakOrder(a: Process, b: Process, c: Process)
    ensures !Less(a, a)
    ensures Less(a, b) ==> !Less(b, a)
    ensures Less(a, b) && Less(b, c) ==> Less(a, c)
    ensures !Less(a, b) && !Less(b, a) && !Less(b, c) && !Less(c, b) ==> !Less(a, c) && !Less(c, a)
    ensures !Less(a, b) && !Less(b, a) <==> a.cachedCpu == b.cachedCpu
  {
  }

  /** Ordered as `operator<` sorts: no process is Less than one before it. */
  predicate SortedByLess(ps: seq<Process>) {
    forall i, j :: 0 <= i < j < |ps| ==> !Less(ps[j], ps[i])
  }

  /** Shares never increase along the sequence. */
  predicate DescendingShares(ps: seq<Process>) {
    forall i, j :: 0 <= i < j < |ps| ==> ps[i].cachedCpu >= ps[j].cachedCpu
  }

  /** Checking neighbours suffices: when no process is Less than the one just
      before it, the shares descend along the whole sequence. */
  lemma {:induction false} AdjacentSortedIsDescending(ps: seq<Process>)
    requires forall i :: 0 <= i < |ps| - 1 ==> !Less(ps[i + 1], ps[i])
    ensures DescendingShares(ps)
    ensures SortedByLess(ps)
  {
    if |ps| > 1 {
      AdjacentSortedIsDescending(ps[1..]);
      forall i, j | 0 <= i < j < |ps| ensures ps[i].cachedCpu >= ps[j].cachedCpu {
        if i > 0 {
          assert ps[i] == ps[1..][i - 1] && ps[j] == ps[1..][j - 1];
        } else {
          assert ps[1] == ps[1..][0];
          if j > 1 {
            assert ps[j] == ps[1..][j - 1];
          }
        }
      }
    }
  }
}
