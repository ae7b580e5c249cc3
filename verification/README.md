# A model of the system monitor's Linux parser, process and format code

This project models the data layer of a terminal system monitor for Linux
(the `LinuxParser` namespace, the `Process` class and `Format::ElapsedTime`)
and proves properties of it in Dafny.

The modelled readers are:

- the kernel version from `/proc/version`;
- the distribution name from `/etc/os-release`;
- the uptime from `/proc/uptime`;
- the memory figures from `/proc/meminfo`;
- the process counts from `/proc/stat`;
- the process ids from the `/proc` listing;
- the per-process counters from `/proc/<pid>/stat`;
- the uid from `/proc/<pid>/status`;
- the user name from `/etc/passwd`.

On top of these come the per-process CPU share, the process ordering, and
the `HH:MM:SS` display of a number of seconds.

Every file is data. A readable file is the sequence of its lines; `None`
means the file cannot be opened. The `/proc` listing is a sequence of
`(name, is-directory)` entries.

The way a C++ call can end is explicit, as `Outcome`:

- `Returns`: a value;
- `Spins`: a loop that can never exit;
- `Throws`: `std::stoi`/`std::stol` throwing `std::invalid_argument`;
- `Undefined`: reading past the end of a vector, or dividing by zero.

Whitespace tokenisation models `operator>>` on a string stream. An
extraction that fails leaves its target unchanged, and the readers depend
on that. C++ `/` and `%` on `long` truncate toward zero, and `CppInt`
models them explicitly.

The modules are:

- `Results`: `Option`, `Outcome`.
- `Text`: tokens, `isNumber`, `std::stol`, `std::to_string`.
- `CppInt`: C++ division.
- `SystemParser`: the system-wide readers.
- `ProcessParser`: the per-process readers.
- `Processes`: the `Process` class.
- `Format`: `Format::ElapsedTime`.

In these places the code does something its comments do not say, and the
model follows the code:

- **Distribution name without `PRETTY_NAME`.** The comment at
  `src/linux_parser.cpp:26-33` describes only extracting the `PRETTY_NAME`
  value. Without such a line `OperatingSystem` returns the value of the last
  key/value pair read, still with underscores, because `value` survives the
  loops.
- **Distribution name with '_'.** The same comment promises to "reformat
  back the string to the original format". The code turns every '_' of the
  value into ' ', including underscores the file itself wrote, so
  `PRETTY_NAME="Foo_Bar"` reads as `Foo Bar`
  (`SystemParser.OperatingSystemTurnsUnderscores`).
- **Counter map.** The comment at `src/linux_parser.cpp:436-446` numbers
  the fields from 1, so `starttime` is field 22. The guard at line 485 still
  asks for more than 22 tokens, and a record of exactly 22 gives an empty
  map.
- **CPU share.** The formula in the comment at `src/process.cpp:40-53`
  divides `total_time` and `starttime` by the clock frequency. In the code
  both are `long` divisions, which truncate to whole seconds before the
  final division. 150 ticks at 100 Hz over 200 seconds therefore give 0.005
  (`Processes.ShareOfHundredFiftyTicks`).
- **`User`.** The comment at `src/linux_parser.cpp:393` promises "UNKNOWN"
  for a uid that is not found. The code returns "UNKNOWN" only when the
  password file cannot be opened (see Findings).
- **Negative counts.** The comment at `src/format.cpp:8-9` promises
  `HH:MM:SS`. `ElapsedTime` of a negative count gives every field the
  count's sign (`-61` displays as `00:-1:-1`).

## Model

| member | source | states |
|---|---|---|
| Text.IsNumber | src/linux_parser.cpp:504-517 | a token passes exactly when it is non-empty, every character is a digit or '.', and it holds at most one '.' |
| Text.StolOfNumber | src/linux_parser.cpp:196-200 | `stol` of a token that passes `isNumber` throws exactly when it starts with '.', and otherwise yields the value of the digits before the '.' |
| SystemParser.NumberOr0 | src/linux_parser.cpp:276-281 | a token that is not a number counts as 0; a number token starting with '.' makes `stoi` throw; any other yields its integer part |
| SystemParser.Kernel | src/linux_parser.cpp:63-73 | the kernel is non-empty exactly when the file opens and its first line has at least three tokens, and it is then one of those tokens |
| SystemParser.KernelOfVersionLine | src/linux_parser.cpp:63-73 | a first line `os version kernel ...` yields exactly `kernel` |
| SystemParser.ScanPairsSpec | src/linux_parser.cpp:45-50 | the pair loop over one line stops at the first `PRETTY_NAME` pair with its value, and otherwise leaves the value of the line's last complete pair |
| SystemParser.ScanOsLinesSpec | src/linux_parser.cpp:39-53 | the line loop yields the first `PRETTY_NAME` value of the whole file with '_' turned back into ' ', and otherwise the value of the last complete pair |
| SystemParser.OperatingSystem | src/linux_parser.cpp:34-54 | "" for an unreadable file; otherwise the first `PRETTY_NAME` value, underscores restored, or failing that the last value read |
| SystemParser.OperatingSystemOfQuotedName | src/linux_parser.cpp:41-48 | a first line `PRETTY_NAME="v"`, for a non-empty `v` without '=', '"' or blanks other than ' ', yields `v` with every '_' turned into ' ' |
| SystemParser.OperatingSystemOfPrettyName | src/linux_parser.cpp:41-48 | for such a `v`, the line yields `v` back if and only if `v` holds no '_': its ' ' blanks survive the maps there and back, and any '_' comes back as ' ' |
| SystemParser.OperatingSystemTurnsUnderscores | src/linux_parser.cpp:41-48 | `PRETTY_NAME="Foo_Bar"` yields `Foo Bar`, not the name as written |
| SystemParser.UpTime | src/linux_parser.cpp:175-218 | 0 for an unreadable file; otherwise the integer part of the first token when it is a number, else 0; `stol` throws when that token passes `isNumber` but starts with '.'; never negative |
| SystemParser.UpTimeOfUptimeFile | src/linux_parser.cpp:187-200 | a line `n.frac idle` yields exactly `n` whole seconds |
| SystemParser.MemValues | src/linux_parser.cpp:126-150 | the loop over the first four lines pushes at most four values, none negative, and never loops; it returns or a `stol` throws |
| SystemParser.UsedFraction | src/linux_parser.cpp:164 | the fraction times the total is the used memory (total minus free), and it lies in [0, 1] when free is within the total |
| SystemParser.MemoryUtilization | src/linux_parser.cpp:113-165 | a result has a positive total and no negative figure, and its fraction is the used share of that total; it never loops |
| SystemParser.MemValuesOfReadings | src/linux_parser.cpp:126-150 | the loop reads, line by line, the value each line carries or, for a line without one, the value kept from the line before |
| SystemParser.MemoryOfMeminfo | src/linux_parser.cpp:126-164 | four lines `key value unit` yield those four values and the used fraction of the first two |
| SystemParser.MemoryReusesValueOfShortLine | src/linux_parser.cpp:132-139 | a second line that holds only its key repeats the first line's value, so free equals total and the fraction is 0 |
| SystemParser.ScanKeySpec | src/linux_parser.cpp:254-268 | the key scan stops at the first line keyed by the target, with the second token of the last line up to there that has one, and never ends when no line is keyed so |
| SystemParser.ProcessCount | src/linux_parser.cpp:242-284 | 0 for an unreadable file; otherwise the scan stops at the first line whose first token is the target key, and the count is `NumberOr0` of the latest second token read up to and including that line (its own, unless it holds the key alone); it never returns when no line has the key |
| SystemParser.ProcessCountOfStat | src/linux_parser.cpp:292-339 | in a stat file of two-token lines, the count is the number on the first line keyed `procs_running` (or `processes`) |
| SystemParser.ProcessCountSpinsWithoutKey | src/linux_parser.cpp:254-268 | a stat file without the key makes the source's scan loop forever, while the bounded scan yields 0 |
| SystemParser.ProcessCountBounded | src/linux_parser.cpp:236-241 | the intended count always ends: 0 at the end of a file without the key, and otherwise the source's count |
| SystemParser.PidNames | src/linux_parser.cpp:82-88 | every name kept is all digits |
| SystemParser.PidNamesAppend | src/linux_parser.cpp:80-90 | the filter goes entry by entry in listing order: the names kept from a listing are those kept from its first part followed by those kept from the rest |
| SystemParser.PidNamesOfEntry | src/linux_parser.cpp:82-88 | a single entry is kept exactly when it is a directory whose name is all digits, and then it is kept by its name |
| SystemParser.PidNamesMembership | src/linux_parser.cpp:82-88 | a name is kept exactly when some digit-named directory of the listing carries it, so no such directory is dropped and nothing else is kept |
| SystemParser.Pids | src/linux_parser.cpp:76-93 | the ids are the values of the digit-named directories in listing order; `stoi` throws exactly when such a directory has an empty name |
| ProcessParser.ProcessUtilData | src/linux_parser.cpp:448-494 | the map is empty exactly when the record has 22 tokens or fewer; otherwise the counters are read or `stol` throws |
| ProcessParser.Counters | src/linux_parser.cpp:485-491 | a long record gives a non-empty map, or throws exactly when one of the tokens at 13, 14, 15, 16 or 21 is not a number for `stol` |
| ProcessParser.ProcessUtilDataKeys | src/linux_parser.cpp:485-493 | the map holds all five keys `utime`, `stime`, `cutime`, `cstime`, `starttime`, or none, and no other key |
| ProcessParser.ProcessUtilDataOfRecord | include/linux_parser.h:11-20 | a record written with the counters at positions 13, 14, 15, 16 and 21 is read back as exactly those counters under their keys |
| ProcessParser.GetLine | src/linux_parser.cpp:371 | `getline` succeeds exactly while the stream is good and lines remain, and moves to the start of the next line |
| ProcessParser.Extract | src/linux_parser.cpp:373 | `>>` on the file stream yields a token exactly when the stream stays good, crossing line ends, and never moves backwards |
| ProcessParser.Uid | src/linux_parser.cpp:355-387 | " " for an unreadable file; otherwise a uid or a loop that never ends |
| ProcessParser.UidOfStatus | src/linux_parser.cpp:368-379 | when every line after the first, up to the first later "Uid:" line, has two tokens, the loop skips the first line and returns the value on that "Uid:" line, or never ends when there is none; shorter lines after it, such as an empty `Groups:`, do not matter |
| ProcessParser.UidMissesFirstLine | src/linux_parser.cpp:371-373 | with "Uid:" on the first line and no later line keyed "Uid:" (each later line having two tokens), the lookup finds the uid, while the source's loop never returns |
| ProcessParser.UidLookup | src/linux_parser.cpp:349-354 | the intended uid: the second token of the first "Uid:" line when it has one, "" when there is no such line or the file is unreadable |
| ProcessParser.UidAgreesBeyondFirstLine | src/linux_parser.cpp:368-379 | when the "Uid:" line is not the first and every line from the second up to it has two tokens, the source's loop and the lookup give the same uid |
| ProcessParser.UidBeforeEmptyGroups | src/linux_parser.cpp:368-379 | a status file `Name: n`, `Uid: u`, `Groups:` (an empty group list, as for a kernel thread) yields `u` |
| ProcessParser.User | src/linux_parser.cpp:397-430 | "UNKNOWN" only for an unreadable file; a uid of " " matches before any line is read, giving ""; otherwise a name or a loop that never ends |
| ProcessParser.UserOfPasswd | src/linux_parser.cpp:408-422 | for any uid other than " ", the name is the first field of the first line whose third field is the uid; with no such line the loop never ends |
| ProcessParser.UserLookup | src/linux_parser.cpp:389-396 | the intended lookup: that first field, or "UNKNOWN" when the uid is not listed or the file is unreadable |
| ProcessParser.UserAgreesWhenListed | src/linux_parser.cpp:408-422 | for a listed uid, the source's loop and the lookup give the same name |
| ProcessParser.UserSpinsOnUnlistedUid | src/linux_parser.cpp:408-420 | for an unlisted uid other than " ", the source's loop never returns, while the lookup answers "UNKNOWN" |
| CppInt.Quot | src/format.cpp:16 | C++ `/`: the remainder left by the quotient has the dividend's sign and is smaller than the divisor |
| CppInt.Rem | src/format.cpp:17-18 | C++ `%`: divisor times quotient plus remainder is the dividend, with the remainder taking the dividend's sign |
| CppInt.QuotRemOfNatural | src/format.cpp:16-18 | on a non-negative dividend and a positive divisor, C++ and Euclidean division agree |
| Processes.Ratio | src/process.cpp:74 | the final division: the result times the whole elapsed seconds is the whole CPU seconds, and it is not negative for non-negative counts |
| Processes.Share | src/process.cpp:64-76 | 0 when no whole second has passed since the start; otherwise the share times those seconds is the whole seconds of CPU time; not negative for counts in order |
| Processes.CpuUtilization | src/process.cpp:57-79 | throws exactly when `stol` refuses one of the five counters of a long record, or, with a nonzero tick rate, the uptime's first token passes `isNumber` but starts with '.'; an uptime token that is not a number counts as 0; the share is 0 for a zero tick rate or a record of 22 tokens or fewer |
| Processes.CounterShare | src/process.cpp:59-62 | missing counters count as 0, so an empty map has share 0 |
| Processes.CountersOfMap | src/process.cpp:61-62 | the CPU time of a full map is the sum of the four tick counters, and the start time is read back as stored |
| Processes.CpuUtilizationOfFiles | src/process.cpp:57-79 | a stat record and an uptime file yield the share of the record's counters over the uptime's whole seconds |
| Processes.ShareIgnoresPartialSecond | src/process.cpp:69-74 | ticks short of a whole second of CPU time do not change the share |
| Processes.ShareOfHundredFiftyTicks | src/process.cpp:74 | 150 ticks at 100 Hz over 200 s of uptime give 0.005 |
| Processes.UpdateCpuUtilization | src/process.cpp:28 | the cached share becomes the computed share and the pid is unchanged; it throws exactly when the computation does |
| Processes.NewProcess | src/process.cpp:22 | a process is constructed exactly when its share can be computed, keeps its id in decimal, and caches that computed share |
| Processes.Pid | src/process.cpp:35 | `stoi` of the stored id, throwing exactly when it does not start with a number |
| Processes.PidOfNewProcess | src/process.cpp:22-35 | a constructed process reports the id it was constructed with |
| Processes.UpdateOfNewProcess | src/process.cpp:22-28 | updating a new process from the same files leaves it unchanged |
| Processes.Less | src/process.cpp:123-125 | a process comes first exactly when its cached share is larger; `LessIsStrictWeakOrder` states the order it makes |
| Processes.LessIsStrictWeakOrder | src/process.cpp:123-125 | the ordering is irreflexive, asymmetric and transitive, and its equivalence (equal shares) is transitive too, as sorting requires |
| Processes.AdjacentSortedIsDescending | src/process.cpp:123-125 | when no process is ordered before its predecessor, shares descend along the whole sequence and it is sorted |
| Format.Pad2 | src/format.cpp:21-23 | a field is at least two characters; a non-negative field is digits with its value, exactly two below 100, and unpadded from 100 on |
| Format.ClockFields | src/format.cpp:21-25 | fields in range display as `H..H:MM:SS`, read back as the same fields and count; the display has 8 characters exactly when hours are below 100 |
| Format.ElapsedTime | src/format.cpp:14-26 | the display of a non-negative count has 8 characters exactly when the count is below 100 hours |
| Format.SecondsSplit | src/format.cpp:16-18 | on a non-negative count, the fields are the whole hours, the minutes left over (below 60) and the seconds left over, and they make up the count |
| Format.ParseElapsed | src/format.cpp:14-26 | the reading of a display succeeds exactly on `ElapsedForm`, a superset of the displays `ElapsedTime` gives non-negative counts (it also admits extra leading zeros in the hours) |
| Format.ParseElapsedFields | src/format.cpp:16-18 | the count read back has the display's fields as its hours, minutes and seconds |
| Format.ElapsedTimeFields | src/format.cpp:16-25 | a count made of hours, minutes below 60 and seconds below 60 displays as those three fields |
| Format.ParseElapsedTime | src/format.cpp:14-26 | reading back the display of a non-negative count gives the count |
| Format.ElapsedTimeInjective | src/format.cpp:14-26 | different non-negative counts have different displays; hours are not wrapped |
| Format.ElapsedTimeExamples | src/format.cpp:14-26 | 0, 3661 and 90000 seconds display as `00:00:00`, `01:01:01` and `25:00:00` |
| Format.ElapsedTimeOfNegative | src/format.cpp:16-18 | -61 seconds displays as `00:-1:-1`, because truncating division gives every field the sign of the count |

## Left out

- File and directory access are not modelled: opening, reading, `opendir`/`readdir` and closing. Each reader takes the file's contents or the listing as data.
- The diagnostic messages written to `std::cout` have no effect on any result and are not modelled.
- `sysconf(_SC_CLK_TCK)` is a parameter `clk` of the CPU share, because it is a call into the C library.
- Integer width is not modelled. Values are unbounded, so the `std::out_of_range` that `stoi`/`stol` throw for huge tokens, and `long`/`int` overflow, are absent.
- C++ `std::string` is a string of bytes, while a Dafny `string` is a sequence of Unicode characters. In the "C" locale this does not change tokenising or `isdigit`, which only look at ASCII characters, so the model treats each byte as one character.
- Float rounding is not modelled. The memory fraction and the CPU share are exact reals.
- A zero `MemTotal` is modelled as `Undefined`, as C++ leaves division by zero undefined. IEEE arithmetic in practice would give NaN or infinity.
- The stubs are left out: `Jiffies`, `ActiveJiffies`, `IdleJiffies`, the system `CpuUtilization`, `Command`, `Ram` and `UpTime(pid)`. They return constants (src/linux_parser.cpp:220-234, 343-347, 434).
- `Process::Command`, `Process::Ram`, `Process::UpTime` and `Process::User` are left out. They only forward to the readers above or to those stubs.
- The `Processor` and `System` classes are callers outside this model.
- `ProcessParser.ProcessUtilData` takes the process's stat file as given. The source builds its path as `kProcDirectory + pid + kStatFilename`, and that string handling is not modelled.
- include/process.h declares neither `cached_cpu_` nor `UpdateCpuUtilization`, which src/process.cpp uses. The model follows src/process.cpp.
- `TotalProcesses` and `RunningProcesses` are `ProcessCount` with their key. Their rows are `SystemParser.ProcessCount` and `SystemParser.ProcessCountOfStat`.

## Findings

| source | as written | input that shows it | evidently intended | confidence | as-written member | corrected member |
|---|---|---|---|---|---|---|
| src/linux_parser.cpp:408-420 | the loop goes on while the third field differs from the uid, even after `getline` fails at the end of the file | a password file that does not list the uid | "UNKNOWN", as the function's comment promises | not executed | ProcessParser.UserSpinsOnUnlistedUid | ProcessParser.UserLookup |
| src/linux_parser.cpp:371-373 | after `getline` consumes a line, `key` and `uid` are extracted from the file stream, not from the line just read; the first line is never examined | a status file whose first line is `Uid: 1000` | the value on the "Uid:" line | not executed | ProcessParser.UidMissesFirstLine | ProcessParser.UidLookup |
| src/linux_parser.cpp:254-268 | the scan goes on while the key differs from the target, even after `getline` fails at the end of the file | a stat file without a `processes` (or `procs_running`) line | the initial count of 0 | not executed | SystemParser.ProcessCountSpinsWithoutKey | SystemParser.ProcessCountBounded |
