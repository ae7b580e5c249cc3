/** The system-wide readers of `LinuxParser`. Each takes the contents of the
    file it reads (`/proc/version`, `/etc/os-release`, `/proc/uptime`,
    `/proc/meminfo`, `/proc/stat`) or the listing of `/proc` as data. */
module SystemParser {
  import opened Results
  import opened Text

  // ---------------------------------------------------------------------------
  // Conversion shared by the readers

  /** `isNumber(v) ? stoi(v) : 0`: the number a token stands for, 0 for a token
      that is not a number, `Throws` for a number token `std::stoi` refuses. */
  function NumberOr0(v: string): (r: Outcome<int>)
    ensures !IsNumber(v) ==> r == Returns(0)
    ensures IsNumber(v) && v[0] == '.' ==> r == Throws
    ensures IsNumber(v) && v[0] != '.' ==>
              AllDigits(IntegerPart(v)) && r == Returns(DigitsValue(IntegerPart(v)))
  {
    if !IsNumber(v) then Returns(0)
    else
      StolOfNumber(v);
      match Stol(v)
      case None => Throws
      case Some(n) => Returns(n)
  }

  /** The first token of a line, or "" when it has none (the string it is
      extracted into starts out empty). */
  function FirstToken(line: string): (t: string)
    ensures t == "" || IsWord(t)
  {
    var ts := Tokens(line);
    if |ts| > 0 then ts[0] else ""
  }

  // ---------------------------------------------------------------------------
  // Kernel

  /** `LinuxParser::Kernel`: the third token of the first line of `/proc/version`. */
  function Kernel(version: File): (r: string)
    ensures r != "" <==> version.Some? && |Tokens(FirstLine(version.value))| >= 3
    ensures r != "" ==> r in Tokens(FirstLine(version.value))
  {
    match version
    case None => ""
    case Some(lines) =>
      var ts := Tokens(FirstLine(lines));
      if |ts| >= 3 then ts[2] else ""
  }

  /** A version line "os version kernel ..." yields its kernel. */
  lemma KernelOfVersionLine(os: string, version: string, kernel: string, rest: seq<string>, later: seq<string>)
    requires AllWords([os, version, kernel] + rest)
    ensures Kernel(Some([Unwords([os, version, kernel] + rest)] + later)) == kernel
  {
    TokensOfUnwords([os, version, kernel] + rest);
  }

  // ---------------------------------------------------------------------------
  // OperatingSystem

  const PrettyName: string := "PRETTY_NAME"

  /** The three character maps applied to an os-release line before it is
      tokenised, in the source's order. */
  function OsReleaseLine(line: string): (mapped: string) {
    Replace(Replace(Replace(line, ' ', '_'), '=', ' '), '"', ' ')
  }

  /** How `while (linestream >> key >> value)` over one line ends. */
  datatype PairScan = Matched(value: string) | Exhausted(last: string)

  /** The pair loop over one line's tokens; `value` is the value read so far. */
  function ScanPairs(ts: seq<string>, value: string): (scan: PairScan) {
    if |ts| < 2 then Exhausted(value)
    else if ts[0] == PrettyName then Matched(ts[1])
    else ScanPairs(ts[2..], ts[1])
  }

  /** The line loop of `OperatingSystem`; `value` survives from line to line. */
  function ScanOsLines(lines: seq<string>, value: string): (name: string) {
    if |lines| == 0 then value
    else
      match ScanPairs(Tokens(OsReleaseLine(lines[0])), value)
      case Matched(v) => Replace(v, '_', ' ')
      case Exhausted(v) => ScanOsLines(lines[1..], v)
  }

  /** The complete (key, value) pairs of a token list, in order; an odd last
      token forms no pair. */
  function Pairs(ts: seq<string>): (ps: seq<(string, string)>) {
    if |ts| < 2 then [] else [(ts[0], ts[1])] + Pairs(ts[2..])
  }

  /** All complete pairs of the mapped os-release lines, in file order. */
  function OsPairs(lines: seq<string>): (ps: seq<(string, string)>) {
    if |lines| == 0 then [] else Pairs(Tokens(OsReleaseLine(lines[0]))) + OsPairs(lines[1..])
  }

  /** Index of the first pair with key `key`, or |ps| when there is none. */
  function FirstKey(ps: seq<(string, string)>, key: string): (k: nat)
    ensures k <= |ps|
    ensures k < |ps| ==> ps[k].0 == key
    ensures forall j :: 0 <= j < k ==> ps[j].0 != key
  {
    if |ps| == 0 then 0 else if ps[0].0 == key then 0 else 1 + FirstKey(ps[1..], key)
  }

  /** The value of the last pair, or `d` when there are none. */
  function LastValue(ps: seq<(string, string)>, d: string): (v: string) {
    if |ps| == 0 then d else ps[|ps| - 1].1
  }

  lemma {:induction false} FirstKeyAppend(a: seq<(string, string)>, b: seq<(string, string)>, key: string)
    ensures FirstKey(a + b, key) ==
              if FirstKey(a, key) < |a| then FirstKey(a, key) else |a| + FirstKey(b, key)
  {
    if |a| > 0 {
      assert (a + b)[1..] == a[1..] + b;
      FirstKeyAppend(a[1..], b, key);
    } else {
      assert a + b == b;
    }
  }

  lemma LastValueAppend(a: seq<(string, string)>, b: seq<(string, string)>, d: string)
    ensures LastValue(a + b, d) == LastValue(b, LastValue(a, d))
  {
    if |b| == 0 {
      assert a + b == a;
    }
  }

  lemma {:induction false} ScanPairsSpec(ts: seq<string>, value: string)
    ensures var ps := Pairs(ts);
            var k := FirstKey(ps, PrettyName);
            ScanPairs(ts, value) == if k < |ps| then Matched(ps[k].1) else Exhausted(LastValue(ps, value))
    decreases |ts|
  {
    if |ts| >= 2 && ts[0] != PrettyName {
      ScanPairsSpec(ts[2..], ts[1]);
      var ps := Pairs(ts);
      assert ps == [(ts[0], ts[1])] + Pairs(ts[2..]);
      FirstKeyAppend([(ts[0], ts[1])], Pairs(ts[2..]), PrettyName);
      LastValueAppend([(ts[0], ts[1])], Pairs(ts[2..]), value);
    }
  }

  lemma {:induction false} ScanOsLinesSpec(lines: seq<string>, value: string)
    ensures var ps := OsPairs(lines);
            var k := FirstKey(ps, PrettyName);
            ScanOsLines(lines, value) ==
              if k < |ps| then Replace(ps[k].1, '_', ' ') else LastValue(ps, value)
  {
    if |lines| > 0 {
      var ts := Tokens(OsReleaseLine(lines[0]));
      var p0 := Pairs(ts);
      var rest := OsPairs(lines[1..]);
      assert OsPairs(lines) == p0 + rest;
      ScanPairsSpec(ts, value);
      if FirstKey(p0, PrettyName) < |p0| {
        FoundInFirstLine(p0, rest);
      } else {
        ScanOsLinesSpec(lines[1..], LastValue(p0, value));
        NotFoundInFirstLine(p0, rest, value);
      }
    }
  }

  /** A key among a line's pairs is found there, whatever follows. */
  lemma FoundInFirstLine(p0: seq<(string, string)>, rest: seq<(string, string)>)
    requires FirstKey(p0, PrettyName) < |p0|
    ensures var k := FirstKey(p0, PrettyName);
            FirstKey(p0 + rest, PrettyName) == k && (p0 + rest)[k] == p0[k]
  {
    FirstKeyAppend(p0, rest, PrettyName);
  }

  /** A key absent from a line's pairs is looked up in the lines after it,
      whose scan starts from the last value of that line. */
  lemma NotFoundInFirstLine(p0: seq<(string, string)>, rest: seq<(string, string)>, value: string)
    requires FirstKey(p0, PrettyName) == |p0|
    ensures var k := FirstKey(p0 + rest, PrettyName);
            k == |p0| + FirstKey(rest, PrettyName) &&
            (k < |p0 + rest| ==> (p0 + rest)[k] == rest[k - |p0|]) &&
            LastValue(p0 + rest, value) == LastValue(rest, LastValue(p0, value))
  {
    FirstKeyAppend(p0, rest, PrettyName);
    LastValueAppend(p0, rest, value);
  }

  /** `LinuxParser::OperatingSystem`: the value of the first `PRETTY_NAME`
      pair, underscores turned back into blanks; failing that, the value of
      the last pair read (still with underscores), or "" when there is none. */
  function OperatingSystem(osRelease: File): (r: string)
    ensures osRelease.None? ==> r == ""
    ensures osRelease.Some? ==>
              var ps := OsPairs(osRelease.value);
              var k := FirstKey(ps, PrettyName);
              r == if k < |ps| then Replace(ps[k].1, '_', ' ') else LastValue(ps, "")
  {
    match osRelease
    case None => ""
    case Some(lines) =>
      ScanOsLinesSpec(lines, "");
      ScanOsLines(lines, "")
  }

  /** A value that can stand between the quotes of a `PRETTY_NAME` line and
      be read as one token: no '=' or '"', and no blank but ' '. */
  predicate QuotableValue(v: string) {
    |v| > 0 &&
    forall i :: 0 <= i < |v| ==>
      v[i] != '=' && v[i] != '"' && (IsSpace(v[i]) ==> v[i] == ' ')
  }

  /** A value that survives the round trip through the character maps: a
      quotable value without '_'. */
  predicate PrettyValue(v: string) {
    QuotableValue(v) && forall i :: 0 <= i < |v| ==> v[i] != '_'
  }

  /** `PRETTY_NAME="v"` as the first line of os-release yields `v` with
      every '_' turned into ' ': the blanks of `v` come back, and so do its
      underscores, as blanks. */
  lemma OperatingSystemOfQuotedName(v: string, later: seq<string>)
    requires QuotableValue(v)
    ensures OperatingSystem(Some([PrettyName + "=\"" + v + "\""] + later)) == Replace(v, '_', ' ')
  {
    var w := Replace(v, ' ', '_');
    PrettyLineMapped(v, w);
    PrettyLineTokens(w);
    assert Replace(w, '_', ' ') == Replace(v, '_', ' ');
  }

  /** `PRETTY_NAME="v"` as the first line of os-release yields exactly `v`
      when, and only when, `v` holds no '_'. */
  lemma OperatingSystemOfPrettyName(v: string, later: seq<string>)
    requires QuotableValue(v)
    ensures OperatingSystem(Some([PrettyName + "=\"" + v + "\""] + later)) == v <==> PrettyValue(v)
  {
    OperatingSystemOfQuotedName(v, later);
    if PrettyValue(v) {
      assert Replace(v, '_', ' ') == v;
    } else {
      var i :| 0 <= i < |v| && v[i] == '_';
      assert Replace(v, '_', ' ')[i] == ' ';
    }
  }

  /** An underscore in the name does not come back: `Foo_Bar` reads as
      `Foo Bar`. */
  lemma OperatingSystemTurnsUnderscores()
    ensures OperatingSystem(Some([PrettyName + "=\"Foo_Bar\""])) == "Foo Bar"
  {
    var v := "Foo_Bar";
    assert QuotableValue(v);
    assert "=\"" + v + "\"" == "=\"Foo_Bar\"";
    assert PrettyName + "=\"" + v + "\"" == PrettyName + ("=\"" + v + "\"");
    assert [PrettyName + "=\"" + v + "\""] + [] == [PrettyName + "=\"Foo_Bar\""];
    OperatingSystemOfQuotedName(v, []);
    assert Replace(v, '_', ' ') == "Foo Bar";
  }

  /** The character maps turn `PRETTY_NAME="v"` into the key, a blank, and
      `v` with its blanks made underscores between two more blanks. */
  lemma PrettyLineMapped(v: string, w: string)
    requires QuotableValue(v) && w == Replace(v, ' ', '_')
    ensures OsReleaseLine(PrettyName + "=\"" + v + "\"") == PrettyName + " " + (" " + w + " ")
  {
    var line := PrettyName + "=\"" + v + "\"";
    var mapped := PrettyName + " " + (" " + w + " ");
    assert |OsReleaseLine(line)| == |mapped|;
    forall i | 0 <= i < |line|
      ensures OsReleaseLine(line)[i] == mapped[i]
    {
      if i < 11 {
        assert line[i] == PrettyName[i] && mapped[i] == PrettyName[i];
      } else if i < 13 {
      } else if i < 13 + |v| {
        assert line[i] == v[i - 13] && mapped[i] == w[i - 13];
      }
    }
  }

  lemma PrettyLineTokens(w: string)
    requires IsWord(w)
    ensures Tokens(PrettyName + " " + (" " + w + " ")) == [PrettyName, w]
  {
    assert IsWord(PrettyName);
    TokensAfterWord(PrettyName, " " + w + " ");
    assert (" " + w + " ")[1..] == w + " " + "";
    TokensAfterWord(w, "");
  }

  // ---------------------------------------------------------------------------
  // UpTime

  /** `LinuxParser::UpTime()`: the whole seconds of the first token of
      `/proc/uptime`, 0 when that token is missing or not a number. */
  function UpTime(uptime: File): (r: Outcome<int>)
    ensures uptime.None? ==> r == Returns(0)
    ensures uptime.Some? ==> r == NumberOr0(FirstToken(FirstLine(uptime.value)))
    ensures r.Returns? ==> r.value >= 0
  {
    match uptime
    case None => Returns(0)
    case Some(lines) => NumberOr0(FirstToken(FirstLine(lines)))
  }

  lemma {:induction false} IntegerPartOfDecimal(ds: string, frac: string)
    requires AllDigits(ds)
    ensures IntegerPart(ds + "." + frac) == ds
  {
    if |ds| > 0 {
      assert (ds + "." + frac)[1..] == ds[1..] + "." + frac;
      IntegerPartOfDecimal(ds[1..], frac);
    }
  }

  /** An uptime file "n.frac idle" yields n seconds. */
  lemma UpTimeOfUptimeFile(n: nat, frac: string, idle: string, later: seq<string>)
    requires AllDigits(frac) && IsWord(idle)
    ensures UpTime(Some([Unwords([NatToString(n) + "." + frac, idle])] + later)) == Returns(n)
  {
    var d := NatToString(n);
    var t := d + "." + frac;
    assert IsWord(t) by {
      forall i | 0 <= i < |t| ensures !IsSpace(t[i]) {
        if i < |d| { assert t[i] == d[i]; } else if i > |d| { assert t[i] == frac[i - |d| - 1]; }
      }
    }
    TokensOfUnwords([t, idle]);
    assert NumberChars(t) by {
      forall i | 0 <= i < |t| ensures IsDigit(t[i]) || t[i] == '.' {
        if i < |d| { assert t[i] == d[i]; } else if i > |d| { assert t[i] == frac[i - |d| - 1]; }
      }
    }
    assert multiset(t)['.'] == 1 by {
      DigitsAreNumber(d);
      if |frac| > 0 { DigitsAreNumber(frac); }
      assert multiset(t) == multiset(d) + multiset(".") + multiset(frac);
    }
    IntegerPartOfDecimal(d, frac);
  }

  // ---------------------------------------------------------------------------
  // MemoryUtilization

  /** `MemoryUtilData_t`: the first four values of `/proc/meminfo`, in kB. */
  datatype MemoryStats = MemoryStats(total: int, free: int, available: int, buffers: int)

  /** The loop over the first four meminfo lines, from line `l` on: the values
      pushed to `memValues`. `value` is the value string kept from earlier
      lines, since an extraction that fails leaves it unchanged. */
  function MemValues(lines: seq<string>, l: nat, value: string): (r: Outcome<seq<int>>)
    requires l <= 4
    ensures r.Returns? || r.Throws?
    ensures r.Returns? ==> |r.value| <= 4 - l
    ensures r.Returns? ==> forall i :: 0 <= i < |r.value| ==> r.value[i] >= 0
    decreases 4 - l
  {
    if l == 4 then Returns([])
    else if l >= |lines| then MemValues(lines, l + 1, value)
    else
      var ts := Tokens(lines[l]);
      var v := if |ts| >= 2 then ts[1] else value;
      if !IsNumber(v) then MemValues(lines, l + 1, v)
      else
        match Stol(v)
        case None => Throws
        case Some(n) =>
          match MemValues(lines, l + 1, v)
          case Returns(rest) => Returns([n] + rest)
          case Throws => Throws
  }

  /** `(total - free) / total` as the source computes it in `float`: the share
      of the total that is not free. */
  function UsedFraction(total: int, free: int): (f: real)
    requires total > 0
    ensures f * total as real == (total - free) as real
    ensures 0 <= free <= total ==> 0.0 <= f <= 1.0
  {
    (total - free) as real / total as real
  }

  /** `LinuxParser::MemoryUtilization`: the four values and the fraction of
      memory in use. `Undefined` when fewer than four values were read (the
      source then indexes past the end of its vector) or the total is 0 (a
      float division by zero). */
  function MemoryUtilization(meminfo: File): (r: Outcome<(MemoryStats, real)>)
    ensures !r.Spins?
    ensures r.Returns? ==>
              var m := r.value.0;
              m.total > 0 && m.free >= 0 && m.available >= 0 && m.buffers >= 0 &&
              r.value.1 == UsedFraction(m.total, m.free)
  {
    var values := if meminfo.None? then Returns([]) else MemValues(meminfo.value, 0, "");
    if values.Throws? then Throws
    else
      var vs := values.value;
      if |vs| < 4 || vs[0] == 0 then Undefined
      else
        var m := MemoryStats(vs[0], vs[1], vs[2], vs[3]);
        Returns((m, UsedFraction(m.total, m.free)))
  }

  /** A meminfo line "key value unit...". */
  function MeminfoLine(key: string, value: nat, unit: seq<string>): (line: string) {
    Unwords([key, NatToString(value)] + unit)
  }

  lemma MeminfoLineTokens(key: string, value: nat, unit: seq<string>)
    requires IsWord(key) && AllWords(unit)
    ensures var ts := Tokens(MeminfoLine(key, value, unit));
            |ts| >= 2 && ts[1] == NatToString(value) && IsNumber(ts[1]) &&
            Stol(ts[1]) == Some(value)
  {
    var d := NatToString(value);
    DigitsAreNumber(d);
    TokensOfUnwords([key, d] + unit);
    StolOfDigits(d);
  }

  /** A meminfo line whose second token is the decimal form of `n`. */
  predicate CarriesValue(line: string, n: nat) {
    |Tokens(line)| >= 2 && Tokens(line)[1] == NatToString(n)
  }

  /** One pass of the meminfo loop over a line whose second token is the
      decimal `n`. */
  lemma MemValuesStep(lines: seq<string>, l: nat, value: string, n: nat, rest: seq<int>)
    requires l < 4 && l < |lines|
    requires CarriesValue(lines[l], n)
    requires MemValues(lines, l + 1, NatToString(n)) == Returns(rest)
    ensures MemValues(lines, l, value) == Returns([n] + rest)
  {
    DigitsAreNumber(NatToString(n));
    StolOfDigits(NatToString(n));
  }

  /** Line i of meminfo yields `values[i]`: it carries that value itself, or
      it is too short to carry one and the value kept from before (`value`
      for the first line scanned, the previous reading after it) is that
      value again. */
  predicate YieldsReading(lines: seq<string>, values: seq<int>, l: nat, value: string, i: nat)
    requires l <= i < 4 && |values| == 4 && |lines| >= 4 && values[i] >= 0
  {
    CarriesValue(lines[i], values[i]) ||
    (|Tokens(lines[i])| < 2 && if i == l then value == NatToString(values[i]) else values[i] == values[i - 1])
  }

  /** The meminfo loop from line `l` reads the values the lines yield. */
  lemma {:induction false} MemValuesOfReadings(lines: seq<string>, values: seq<int>, l: nat, value: string)
    requires l <= 4 && |values| == 4 && |lines| >= 4
    requires forall i :: l <= i < 4 ==> values[i] >= 0
    requires forall i :: l <= i < 4 ==> YieldsReading(lines, values, l, value, i)
    ensures MemValues(lines, l, value) == Returns(values[l..])
    decreases 4 - l
  {
    if l < 4 {
      var d := NatToString(values[l]);
      ReadingsAfter(lines, values, l, value, l + 1, d);
      MemValuesOfReadings(lines, values, l + 1, d);
      assert YieldsReading(lines, values, l, value, l);
      MemValuesReading(lines, l, value, values[l]);
      assert [values[l]] + values[l + 1..] == values[l..];
    } else {
      MemValuesEnd(lines, values, value);
    }
  }

  /** The lines after `l` yield their readings when the scan starts from the
      reading of line `l`. */
  lemma ReadingsAfter(lines: seq<string>, values: seq<int>, l: nat, value: string, next: nat, d: string)
    requires l < 4 && |values| == 4 && |lines| >= 4
    requires forall i :: l <= i < 4 ==> values[i] >= 0
    requires forall i :: l <= i < 4 ==> YieldsReading(lines, values, l, value, i)
    requires next == l + 1 && d == NatToString(values[l])
    ensures forall i :: next <= i < 4 ==> YieldsReading(lines, values, next, d, i)
  {
    forall i | next <= i < 4 ensures YieldsReading(lines, values, next, d, i) {
      assert YieldsReading(lines, values, l, value, i);
    }
  }

  /** One pass of the meminfo loop over a line that yields `n`. */
  lemma MemValuesReading(lines: seq<string>, l: nat, value: string, n: nat)
    requires l < 4 && l < |lines|
    requires CarriesValue(lines[l], n) || (|Tokens(lines[l])| < 2 && value == NatToString(n))
    ensures var next := MemValues(lines, l + 1, NatToString(n));
            next.Returns? ==> MemValues(lines, l, value) == Returns([n] + next.value)
  {
    var next := MemValues(lines, l + 1, NatToString(n));
    if next.Returns? {
      if CarriesValue(lines[l], n) {
        MemValuesStep(lines, l, value, n, next.value);
      } else {
        MemValuesReuse(lines, l, n, next.value);
      }
    }
  }

  lemma MemValuesEnd(lines: seq<string>, values: seq<int>, value: string)
    requires |values| == 4
    ensures MemValues(lines, 4, value) == Returns(values[4..])
  {
    assert values[4..] == [];
  }

  /** Four meminfo lines "key value unit..." followed by any others. */
  function MeminfoLines(keys: seq<string>, values: seq<nat>, unit: seq<string>, later: seq<string>): (lines: seq<string>)
    requires |keys| == 4 && |values| == 4
    ensures |lines| == 4 + |later| && lines[4..] == later
    ensures forall i :: 0 <= i < 4 ==> lines[i] == MeminfoLine(keys[i], values[i], unit)
  {
    [MeminfoLine(keys[0], values[0], unit), MeminfoLine(keys[1], values[1], unit),
     MeminfoLine(keys[2], values[2], unit), MeminfoLine(keys[3], values[3], unit)] + later
  }

  /** Four well-formed meminfo lines yield their four values in order, and the
      fraction (total - free) / total. */
  lemma MemoryOfMeminfo(keys: seq<string>, values: seq<nat>, unit: seq<string>, later: seq<string>)
    requires |keys| == 4 && |values| == 4 && AllWords(keys) && AllWords(unit)
    requires values[0] > 0
    ensures MemoryUtilization(Some(MeminfoLines(keys, values, unit, later))) ==
              Returns((MemoryStats(values[0], values[1], values[2], values[3]),
                       UsedFraction(values[0], values[1])))
  {
    var lines := MeminfoLines(keys, values, unit, later);
    forall i | 0 <= i < 4
      ensures CarriesValue(lines[i], values[i])
    {
      MeminfoLineTokens(keys[i], values[i], unit);
    }
    var vs: seq<int> := values;
    MemValuesOfReadings(lines, vs, 0, "");
    assert vs[0..] == vs;
  }

  /** One pass of the meminfo loop over a line with fewer than two tokens:
      the extraction fails, and the value kept from the line before is pushed
      again. */
  lemma MemValuesReuse(lines: seq<string>, l: nat, n: nat, rest: seq<int>)
    requires l < 4 && l < |lines| && |Tokens(lines[l])| < 2
    requires MemValues(lines, l + 1, NatToString(n)) == Returns(rest)
    ensures MemValues(lines, l, NatToString(n)) == Returns([n] + rest)
  {
    DigitsAreNumber(NatToString(n));
    StolOfDigits(NatToString(n));
  }

  /** A meminfo line with fewer than two tokens (a key without its value)
      reuses the previous line's value: here MemFree reads as MemTotal, and
      the fraction is 0. */
  lemma MemoryReusesValueOfShortLine(lines: seq<string>, values: seq<nat>)
    requires |lines| == 4 && |values| == 4 && values[0] > 0
    requires |Tokens(lines[1])| < 2
    requires CarriesValue(lines[0], values[0]) && CarriesValue(lines[2], values[2]) && CarriesValue(lines[3], values[3])
    ensures MemoryUtilization(Some(lines)) ==
              Returns((MemoryStats(values[0], values[0], values[2], values[3]), 0.0))
  {
    var vs: seq<int> := [values[0], values[0], values[2], values[3]];
    ShortLineReadings(lines, values, vs);
    MemValuesOfReadings(lines, vs, 0, "");
    assert vs[0..] == vs;
    MemoryOfValues(lines, vs);
  }

  lemma ShortLineReadings(lines: seq<string>, values: seq<nat>, vs: seq<int>)
    requires |lines| == 4 && |values| == 4
    requires |Tokens(lines[1])| < 2
    requires CarriesValue(lines[0], values[0]) && CarriesValue(lines[2], values[2]) && CarriesValue(lines[3], values[3])
    requires vs == [values[0], values[0], values[2], values[3]]
    ensures forall i :: 0 <= i < 4 ==> vs[i] >= 0
    ensures forall i :: 0 <= i < 4 ==> YieldsReading(lines, vs, 0, "", i)
  {
    forall i | 0 <= i < 4 ensures vs[i] >= 0 && YieldsReading(lines, vs, 0, "", i) {
      if i == 1 {
        assert !CarriesValue(lines[1], vs[1]);
      } else {
        assert CarriesValue(lines[i], values[i]);
      }
    }
  }

  /** Four values read, the first of them positive, make the result. */
  lemma MemoryOfValues(lines: seq<string>, vs: seq<int>)
    requires MemValues(lines, 0, "") == Returns(vs) && |vs| == 4 && vs[0] > 0
    ensures MemoryUtilization(Some(lines)) ==
              Returns((MemoryStats(vs[0], vs[1], vs[2], vs[3]), UsedFraction(vs[0], vs[1])))
  {
  }

  // ---------------------------------------------------------------------------
  // TotalProcesses and RunningProcesses

  const ProcessesKey: string := "processes"
  const RunningKey: string := "procs_running"

  /** The loop of `TotalProcesses` / `RunningProcesses`: read lines until the
      key read is `target`. `key` and `value` keep their last extracted tokens;
      at the end of the file the loop never exits. */
  function ScanKey(lines: seq<string>, target: string, key: string, value: string): (r: Outcome<string>)
    ensures r.Returns? || r.Spins?
  {
    if key == target then Returns(value)
    else if |lines| == 0 then Spins
    else
      var ts := Tokens(lines[0]);
      ScanKey(lines[1..], target, if |ts| >= 1 then ts[0] else key, if |ts| >= 2 then ts[1] else value)
  }

  /** The second token of the last line of `lines` that has one, or `d`. */
  function LatestValue(lines: seq<string>, d: string): (v: string) {
    if |lines| == 0 then d
    else
      var ts := Tokens(lines[|lines| - 1]);
      if |ts| >= 2 then ts[1] else LatestValue(lines[..|lines| - 1], d)
  }

  lemma {:induction false} LatestValueCons(l: string, lines: seq<string>, d: string)
    ensures LatestValue([l] + lines, d) == LatestValue(lines, LatestValue([l], d))
    decreases |lines|
  {
    if |lines| == 0 {
      assert [l] + lines == [l];
    } else {
      var all := [l] + lines;
      assert all[..|all| - 1] == [l] + lines[..|lines| - 1];
      assert all[|all| - 1] == lines[|lines| - 1];
      LatestValueCons(l, lines[..|lines| - 1], d);
    }
  }

  /** The key scan stops at the first line whose first token is the key, with
      the second token of the last line up to it that has two tokens. */
  lemma {:induction false} ScanKeySpec(lines: seq<string>, target: string, key: string, value: string)
    requires key != target
    ensures var k := KeyLine(lines, target);
            ScanKey(lines, target, key, value) ==
              if k < |lines| then Returns(LatestValue(lines[..k + 1], value)) else Spins
  {
    if |lines| > 0 {
      var ts := Tokens(lines[0]);
      var key' := if |ts| >= 1 then ts[0] else key;
      var value' := if |ts| >= 2 then ts[1] else value;
      assert LatestValue([lines[0]], value) == value' by {
        assert [lines[0]][..0] == [];
      }
      if key' == target {
        assert lines[..1] == [lines[0]];
      } else {
        ScanKeySpec(lines[1..], target, key', value');
        var k := KeyLine(lines[1..], target);
        if k < |lines| - 1 {
          LatestValuePrefix(lines, k, value);
        }
      }
    }
  }

  /** The latest value over the first k + 2 lines, seen as the first line
      followed by the first k + 1 lines of the rest. */
  lemma LatestValuePrefix(lines: seq<string>, k: nat, value: string)
    requires k + 1 < |lines|
    ensures LatestValue(lines[..k + 2], value) == LatestValue(lines[1..][..k + 1], LatestValue([lines[0]], value))
  {
    assert lines[..k + 2] == [lines[0]] + lines[1..][..k + 1];
    LatestValueCons(lines[0], lines[1..][..k + 1], value);
  }

  /** The shared body of `TotalProcesses` and `RunningProcesses`. */
  function ProcessCount(stat: File, target: string): (r: Outcome<int>)
    requires target != ""
    ensures stat.None? ==> r == Returns(0)
    ensures stat.Some? ==>
              var k := KeyLine(stat.value, target);
              r == if k < |stat.value| then NumberOr0(LatestValue(stat.value[..k + 1], "0")) else Spins
  {
    match stat
    case None => Returns(0)
    case Some(lines) =>
      ScanKeySpec(lines, target, "", "0");
      match ScanKey(lines, target, "", "0")
      case Returns(v) => NumberOr0(v)
      case Spins => Spins
  }

  /** `LinuxParser::TotalProcesses`. */
  function TotalProcesses(stat: File): (r: Outcome<int>) {
    ProcessCount(stat, ProcessesKey)
  }

  /** `LinuxParser::RunningProcesses`. */
  function RunningProcesses(stat: File): (r: Outcome<int>) {
    ProcessCount(stat, RunningKey)
  }

  /** In a stat file whose lines all have two tokens, the count is the
      number on the first line keyed `target`. */
  lemma ProcessCountOfStat(lines: seq<string>, target: string, k: nat, n: nat)
    requires target != ""
    requires forall i :: 0 <= i < |lines| ==> |Tokens(lines[i])| >= 2
    requires k < |lines| && Tokens(lines[k])[0] == target && Tokens(lines[k])[1] == NatToString(n)
    requires forall j :: 0 <= j < k ==> Tokens(lines[j])[0] != target
    ensures ProcessCount(Some(lines), target) == Returns(n)
  {
    var kl := KeyLine(lines, target);
    assert kl == k;
    var ls := lines[..k + 1];
    assert ls[|ls| - 1] == lines[k];
    var d := NatToString(n);
    DigitsAreNumber(d);
    IntegerPartIsDigitRun(d);
    assert d[..|d|] == d;
  }

  /** The bounded scan the source evidently intends: the same count wherever
      the source's scan ends, and 0 at the end of a file without the key. */
  function ProcessCountBounded(stat: File, target: string): (r: Outcome<int>)
    requires target != ""
    ensures r != Spins
    ensures stat.Some? && KeyLine(stat.value, target) == |stat.value| ==> r == Returns(0)
    ensures ProcessCount(stat, target) != Spins ==> r == ProcessCount(stat, target)
  {
    match ProcessCount(stat, target)
    case Spins => Returns(0)
    case other => other
  }

  /** A stat file without the key: the source's scan never ends, the bounded
      one yields 0. */
  lemma ProcessCountSpinsWithoutKey(lines: seq<string>, target: string)
    requires target != ""
    requires forall i :: 0 <= i < |lines| ==> |Tokens(lines[i])| == 0 || Tokens(lines[i])[0] != target
    ensures ProcessCount(Some(lines), target) == Spins
    ensures ProcessCountBounded(Some(lines), target) == Returns(0)
  {
    assert KeyLine(lines, target) == |lines|;
  }

  // ---------------------------------------------------------------------------
  // Pids

  /** One entry of the `/proc` listing: its name and whether `d_type` is `DT_DIR`. */
  datatype DirEntry = DirEntry(name: string, isDir: bool)

  /** The test `Pids` applies: a directory whose name is all digits
      (`std::all_of` holds of the empty name too). */
  predicate PidEntry(e: DirEntry) {
    e.isDir && AllDigits(e.name)
  }

  /** Names of the entries `Pids` keeps, in listing order. */
  function PidNames(entries: seq<DirEntry>): (names: seq<string>)
    ensures forall i :: 0 <= i < |names| ==> AllDigits(names[i])
  {
    if |entries| == 0 then []
    else
      var e := entries[|entries| - 1];
      PidNames(entries[..|entries| - 1]) + if PidEntry(e) then [e.name] else []
  }

  /** The filter works entry by entry: the names kept from a listing are
      those kept from its first part followed by those kept from the rest. */
  lemma {:induction false} PidNamesAppend(a: seq<DirEntry>, b: seq<DirEntry>)
    ensures PidNames(a + b) == PidNames(a) + PidNames(b)
    decreases |b|
  {
    if |b| == 0 {
      assert a + b == a;
    } else {
      var front := b[..|b| - 1];
      assert (a + b)[..|a + b| - 1] == a + front;
      assert (a + b)[|a + b| - 1] == b[|b| - 1];
      PidNamesAppend(a, front);
    }
  }

  /** A single entry is kept exactly when it is a digit-named directory. */
  lemma PidNamesOfEntry(e: DirEntry)
    ensures PidNames([e]) == if PidEntry(e) then [e.name] else []
  {
    assert [e][..0] == [];
  }

  /** A name is kept exactly when some digit-named directory of the listing
      carries it. */
  lemma {:induction false} PidNamesMembership(entries: seq<DirEntry>, n: string)
    ensures n in PidNames(entries) <==>
              exists i :: 0 <= i < |entries| && PidEntry(entries[i]) && entries[i].name == n
  {
    if |entries| > 0 {
      var front := entries[..|entries| - 1];
      PidNamesMembership(front, n);
      if n in PidNames(front) {
        var i :| 0 <= i < |front| && PidEntry(front[i]) && front[i].name == n;
        assert entries[i] == front[i];
      }
      if exists i :: 0 <= i < |entries| && PidEntry(entries[i]) && entries[i].name == n {
        var i :| 0 <= i < |entries| && PidEntry(entries[i]) && entries[i].name == n;
        if i < |front| {
          assert front[i] == entries[i];
        }
      }
    }
  }

  /** `LinuxParser::Pids`: the ids of the directories of `/proc` named by
      digits, in listing order; `Throws` when such a name is empty
      (`std::stoi("")`). */
  method Pids(entries: seq<DirEntry>) returns (r: Outcome<seq<int>>)
    ensures r.Returns? || r.Throws?
    ensures r.Throws? <==> exists i :: 0 <= i < |entries| && entries[i].isDir && entries[i].name == ""
    ensures r.Returns? ==>
              var names := PidNames(entries);
              |r.value| == |names| &&
              forall i :: 0 <= i < |names| ==> r.value[i] == DigitsValue(names[i])
  {
    var pids: seq<int> := [];
    var i := 0;
    while i < |entries|
      invariant 0 <= i <= |entries|
      invariant forall j :: 0 <= j < i ==> !(entries[j].isDir && entries[j].name == "")
      invariant |pids| == |PidNames(entries[..i])|
      invariant forall j :: 0 <= j < |pids| ==> pids[j] == DigitsValue(PidNames(entries[..i])[j])
    {
      var e := entries[i];
      assert entries[..i + 1][..i] == entries[..i];
      if PidEntry(e) {
        if e.name == "" {
          return Throws;
        }
        StolOfDigits(e.name);
        var p := Stol(e.name);
        pids := pids + [p.value];
      }
      i := i + 1;
    }
    assert entries[..i] == entries;
    return Returns(pids);
  }
}
