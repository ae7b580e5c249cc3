/** The per-process readers of `LinuxParser`: the scheduling counters of
    `/proc/<pid>/stat`, the owner's uid in `/proc/<pid>/status`, and the user
    name the password file gives that uid. Each takes the file's contents as
    data. */
module ProcessParser {
  import opened Results
  import opened Text

  // ---------------------------------------------------------------------------
  // processUtilData

  /** Positions of the counters in the stat record, counted from 0. */
  const UtimeIdx: nat := 13
  const StimeIdx: nat := 14
  const CutimeIdx: nat := 15
  const CstimeIdx: nat := 16
  const StarttimeIdx: nat := 21

  /** Keys of the counter map. */
  const KeyUtime: string := "utime"
  const KeyStime: string := "stime"
  const KeyCutime: string := "cutime"
  const KeyCstime: string := "cstime"
  const KeyStarttime: string := "starttime"

  /** The tokens of the stat record: the first line, or none when the file
      cannot be opened or is empty. */
  function StatTokens(stat: File): (ts: seq<string>) {
    match stat
    case None => []
    case Some(lines) => Tokens(FirstLine(lines))
  }

  /** `LinuxParser::processUtilData`: the five counters by position when the
      record has more than 22 tokens, an empty map otherwise; `Throws` when
      `std::stol` refuses one of the five tokens. */
  function ProcessUtilData(stat: File): (r: Outcome<map<string, int>>)
    ensures r.Returns? || r.Throws?
    ensures |StatTokens(stat)| <= 22 <==> r == Returns(map[])
  {
    var ts := StatTokens(stat);
    if |ts| <= 22 then Returns(map[]) else Counters(ts)
  }

  /** The five counters of a long enough stat record. */
  function Counters(ts: seq<string>): (r: Outcome<map<string, int>>)
    requires |ts| > 22
    ensures r.Returns? || r.Throws?
    ensures r.Returns? ==> r.value != map[]
    ensures r.Throws? <==> Stol(ts[UtimeIdx]).None? || Stol(ts[StimeIdx]).None? || Stol(ts[CutimeIdx]).None?
                           || Stol(ts[CstimeIdx]).None? || Stol(ts[StarttimeIdx]).None?
  {
    var u := Stol(ts[UtimeIdx]);
    var s := Stol(ts[StimeIdx]);
    var cu := Stol(ts[CutimeIdx]);
    var cs := Stol(ts[CstimeIdx]);
    var st := Stol(ts[StarttimeIdx]);
    if u.Some? && s.Some? && cu.Some? && cs.Some? && st.Some? then
      var m := map[KeyUtime := u.value, KeyStime := s.value, KeyCutime := cu.value,
                   KeyCstime := cs.value, KeyStarttime := st.value];
      assert KeyUtime in m;
      Returns(m)
    else Throws
  }

  /** The counter map holds the five counters or nothing: no other key is
      ever present. */
  lemma ProcessUtilDataKeys(stat: File)
    ensures var r := ProcessUtilData(stat);
            r.Returns? ==> r.value == map[] || r.value.Keys == {KeyUtime, KeyStime, KeyCutime, KeyCstime, KeyStarttime}
  {
  }

  /** A stat record carrying the decimal counters at their positions. */
  predicate CarriesCounters(ts: seq<string>, u: int, s: int, cu: int, cs: int, st: int) {
    |ts| > 22 &&
    ts[UtimeIdx] == IntToString(u) && ts[StimeIdx] == IntToString(s) &&
    ts[CutimeIdx] == IntToString(cu) && ts[CstimeIdx] == IntToString(cs) &&
    ts[StarttimeIdx] == IntToString(st)
  }

  /** Reading a stat record gives back the counters written at positions 13,
      14, 15, 16 and 21. */
  lemma ProcessUtilDataOfRecord(ts: seq<string>, later: seq<string>, u: int, s: int, cu: int, cs: int, st: int)
    requires AllWords(ts) && CarriesCounters(ts, u, s, cu, cs, st)
    ensures ProcessUtilData(Some([Unwords(ts)] + later)) ==
              Returns(map[KeyUtime := u, KeyStime := s, KeyCutime := cu, KeyCstime := cs, KeyStarttime := st])
  {
    TokensOfUnwords(ts);
    StolOfIntToString(u);
    StolOfIntToString(s);
    StolOfIntToString(cu);
    StolOfIntToString(cs);
    StolOfIntToString(st);
  }

  // ---------------------------------------------------------------------------
  // Uid, as written

  const UidKey: string := "Uid:"

  /** Where the stream over the status file stands, at token granularity:
      `line` is the line it is in, `taken` how many of that line's tokens have
      been extracted (0 also right after a `getline` moved it there), and
      `good` turns false once an operation fails; every later one then fails
      too. The file is its lines, each ended by a newline. */
  datatype Cursor = Cursor(line: nat, taken: nat, good: bool)

  /** `std::getline(stream, line)`: consumes the rest of the current line. The
      line read is never used, so only success and the new position matter. */
  function GetLine(lines: seq<string>, c: Cursor): (r: (bool, Cursor))
    requires c.line <= |lines|
    ensures r.0 <==> c.good && c.line < |lines|
    ensures r.0 ==> r.1 == Cursor(c.line + 1, 0, true)
    ensures !r.0 ==> r.1.line == c.line && !r.1.good
  {
    if c.good && c.line < |lines| then (true, Cursor(c.line + 1, 0, true))
    else (false, c.(good := false))
  }

  /** `stream >> word`: skips blanks, newlines included, and extracts the next
      token; `None` when the end of the file comes first. */
  function Extract(lines: seq<string>, c: Cursor): (r: (Option<string>, Cursor))
    requires c.line <= |lines|
    ensures c.line <= r.1.line <= |lines|
    ensures r.0.Some? <==> r.1.good
    ensures r.0.Some? ==> IsWord(r.0.value)
    decreases |lines| - c.line
  {
    if !c.good then (None, c)
    else if c.line == |lines| then (None, c.(good := false))
    else
      var ts := Tokens(lines[c.line]);
      if c.taken < |ts| then (Some(ts[c.taken]), c.(taken := c.taken + 1))
      else Extract(lines, Cursor(c.line + 1, 0, true))
  }

  /** The loop of `LinuxParser::Uid`: each pass consumes a line with `getline`
      and then extracts `key` and `uid` from the file stream itself, not from
      the line it has just read. */
  function UidLoop(lines: seq<string>, c: Cursor, key: string, uid: string): (r: Outcome<string>)
    requires c.line <= |lines|
    ensures r.Returns? || r.Spins?
    decreases |lines| - c.line
  {
    if key == UidKey then Returns(uid)
    else
      var (ok, c1) := GetLine(lines, c);
      if !ok then Spins
      else
        var (k, c2) := Extract(lines, c1);
        var (u, c3) := Extract(lines, c2);
        UidLoop(lines, c3, if k.Some? then k.value else key, if u.Some? then u.value else uid)
  }

  /** `LinuxParser::Uid`: " " when the status file cannot be opened. */
  function Uid(status: File): (r: Outcome<string>)
    ensures status.None? ==> r == Returns(" ")
    ensures r.Returns? || r.Spins?
  {
    match status
    case None => Returns(" ")
    case Some(lines) => UidLoop(lines, Cursor(0, 0, true), " ", " ")
  }

  /** The lines of `rest` up to and including its first "Uid:" line (all of
      them when there is none) have at least two tokens each, as in a real
      status file. Lines after the "Uid:" line, such as an empty `Groups:`
      line, may hold fewer. */
  predicate TwoTokensThroughUid(rest: seq<string>) {
    forall j :: 0 <= j < |rest| && j <= KeyLine(rest, UidKey) ==> |Tokens(rest[j])| >= 2
  }

  /** The loop from the start of line `i`, `t` tokens of it taken: it moves
      to line `i + 1` and from there reads line after line as a key and a
      uid, until the key is "Uid:". */
  lemma {:induction false} UidLoopOfStatusLines(lines: seq<string>, i: nat, t: nat, key: string, uid: string)
    requires i < |lines| && key != UidKey
    requires TwoTokensThroughUid(lines[i + 1..])
    ensures var rest := lines[i + 1..];
            var k := KeyLine(rest, UidKey);
            UidLoop(lines, Cursor(i, t, true), key, uid) ==
              if k < |rest| then Returns(Tokens(rest[k])[1]) else Spins
    decreases |lines| - i
  {
    var rest := lines[i + 1..];
    var c1 := Cursor(i + 1, 0, true);
    if i + 1 == |lines| {
      var failed := Cursor(|lines|, 0, false);
      assert Extract(lines, c1) == (None, failed);
      assert Extract(lines, failed) == (None, failed);
      assert UidLoop(lines, failed, key, uid) == Spins;
    } else {
      var ts := Tokens(lines[i + 1]);
      assert Extract(lines, c1) == (Some(ts[0]), Cursor(i + 1, 1, true));
      assert Extract(lines, Cursor(i + 1, 1, true)) == (Some(ts[1]), Cursor(i + 1, 2, true));
      assert rest[0] == lines[i + 1];
      if ts[0] != UidKey {
        assert rest[1..] == lines[i + 2..];
        assert KeyLine(rest, UidKey) == 1 + KeyLine(rest[1..], UidKey);
        assert TwoTokensThroughUid(rest[1..]) by {
          forall j | 0 <= j < |rest[1..]| && j <= KeyLine(rest[1..], UidKey)
            ensures |Tokens(rest[1..][j])| >= 2
          {
            assert rest[1..][j] == rest[j + 1];
          }
        }
        UidLoopOfStatusLines(lines, i + 1, 2, ts[0], ts[1]);
      }
    }
  }

  /** On a status file whose lines after the first have two tokens each up to
      the "Uid:" line, `Uid` skips the first line and then tests the first
      token of every later line: it yields the second token of the first
      later line keyed "Uid:", and never returns when there is none. */
  lemma UidOfStatus(lines: seq<string>)
    requires |lines| > 0 && TwoTokensThroughUid(lines[1..])
    ensures var rest := lines[1..];
            var k := KeyLine(rest, UidKey);
            Uid(Some(lines)) == if k < |rest| then Returns(Tokens(rest[k])[1]) else Spins
  {
    UidLoopOfStatusLines(lines, 0, 0, " ", " ");
  }

  // ---------------------------------------------------------------------------
  // Uid, as intended

  /** The second token of the first line whose first token is `key`; "" when
      no line has that key or the line holds the key alone. */
  function ValueOfKey(lines: seq<string>, key: string): (r: string)
    ensures var k := KeyLine(lines, key);
            r == if k < |lines| && |Tokens(lines[k])| >= 2 then Tokens(lines[k])[1] else ""
  {
    if |lines| == 0 then ""
    else
      var ts := Tokens(lines[0]);
      if |ts| > 0 && ts[0] == key then (if |ts| >= 2 then ts[1] else "")
      else ValueOfKey(lines[1..], key)
  }

  /** The uid lookup `Uid` is documented to perform: the value on the status
      line keyed "Uid:", "" when there is none or the file cannot be opened. */
  function UidLookup(status: File): (r: string)
    ensures status.None? ==> r == ""
    ensures r != "" ==> IsWord(r)
    ensures status.Some? && KeyLine(status.value, UidKey) == |status.value| ==> r == ""
    ensures status.Some? && KeyLine(status.value, UidKey) < |status.value| &&
            |Tokens(status.value[KeyLine(status.value, UidKey)])| >= 2 ==>
              r == Tokens(status.value[KeyLine(status.value, UidKey)])[1]
  {
    match status
    case None => ""
    case Some(lines) => ValueOfKey(lines, UidKey)
  }

  /** Where the "Uid:" line is not the first and the lines between the first
      and it have two tokens each, the source's loop and the lookup agree. */
  lemma UidAgreesBeyondFirstLine(lines: seq<string>)
    requires 0 < KeyLine(lines, UidKey) < |lines|
    requires TwoTokensThroughUid(lines[1..])
    ensures Uid(Some(lines)) == Returns(UidLookup(Some(lines)))
  {
    UidOfStatus(lines);
    var k := KeyLine(lines, UidKey);
    assert KeyLine(lines[1..], UidKey) == k - 1;
    assert lines[1..][k - 1] == lines[k];
  }

  /** A status file with an empty `Groups:` line after the "Uid:" line, as
      for a kernel thread: the source's loop still finds the uid. */
  lemma UidBeforeEmptyGroups(name: string, uid: string)
    requires IsWord(name) && IsWord(uid)
    ensures Uid(Some([Unwords(["Name:", name]), Unwords([UidKey, uid]), "Groups:"])) == Returns(uid)
  {
    var lines := [Unwords(["Name:", name]), Unwords([UidKey, uid]), "Groups:"];
    TokensOfUnwords([UidKey, uid]);
    assert lines[1..][0] == lines[1];
    assert KeyLine(lines[1..], UidKey) == 0;
    UidOfStatus(lines);
  }

  /** A status file whose first line is the "Uid:" line: the lookup finds the
      uid, the source's loop misses it and never returns. */
  lemma UidMissesFirstLine(uid: string, other: seq<string>)
    requires IsWord(uid)
    requires forall i :: 0 <= i < |other| ==> |Tokens(other[i])| >= 2 && Tokens(other[i])[0] != UidKey
    ensures UidLookup(Some([Unwords([UidKey, uid])] + other)) == uid
    ensures Uid(Some([Unwords([UidKey, uid])] + other)) == Spins
  {
    var lines := [Unwords([UidKey, uid])] + other;
    TokensOfUnwords([UidKey, uid]);
    assert lines[1..] == other;
    UidOfStatus(lines);
    assert KeyLine(other, UidKey) == |other|;
  }

  // ---------------------------------------------------------------------------
  // User, as written

  /** The fields of a password line: ':' turned into ' ', then tokenised. */
  function PasswdFields(line: string): (fields: seq<string>) {
    Tokens(Replace(line, ':', ' '))
  }

  /** The loop of `LinuxParser::User`: `userId` and `value` keep their last
      extracted tokens; at the end of the file the loop never exits. */
  function UserLoop(lines: seq<string>, uid: string, userId: string, value: string): (r: Outcome<string>)
    ensures r.Returns? || r.Spins?
  {
    if value == uid then Returns(userId)
    else if |lines| == 0 then Spins
    else
      var fs := PasswdFields(lines[0]);
      UserLoop(lines[1..], uid, if |fs| >= 1 then fs[0] else userId, if |fs| >= 3 then fs[2] else value)
  }

  /** `LinuxParser::User`: "UNKNOWN" only when the password file cannot be
      opened. `value` starts out as " ", so a uid of " " (what `Uid` yields for
      an unreadable status file) is matched before any line is read. */
  function User(passwd: File, uid: string): (r: Outcome<string>)
    ensures passwd.None? ==> r == Returns("UNKNOWN")
    ensures passwd.Some? && uid == " " ==> r == Returns("")
    ensures r.Returns? || r.Spins?
  {
    match passwd
    case None => Returns("UNKNOWN")
    case Some(lines) => UserLoop(lines, uid, "", " ")
  }

  /** Index of the first password line whose third field is `uid`, or |lines|. */
  function UidLine(lines: seq<string>, uid: string): (k: nat)
    ensures k <= |lines|
    ensures k < |lines| ==> |PasswdFields(lines[k])| >= 3 && PasswdFields(lines[k])[2] == uid
    ensures forall j :: 0 <= j < k ==> |PasswdFields(lines[j])| < 3 || PasswdFields(lines[j])[2] != uid
  {
    if |lines| == 0 then 0
    else
      var fs := PasswdFields(lines[0]);
      if |fs| >= 3 && fs[2] == uid then 0 else 1 + UidLine(lines[1..], uid)
  }

  lemma {:induction false} UserLoopSpec(lines: seq<string>, uid: string, userId: string, value: string)
    requires value != uid
    ensures var k := UidLine(lines, uid);
            UserLoop(lines, uid, userId, value) ==
              if k < |lines| then Returns(PasswdFields(lines[k])[0]) else Spins
  {
    if |lines| > 0 {
      var fs := PasswdFields(lines[0]);
      if !(|fs| >= 3 && fs[2] == uid) {
        UserLoopSpec(lines[1..], uid, if |fs| >= 1 then fs[0] else userId, if |fs| >= 3 then fs[2] else value);
      }
    }
  }

  /** For any uid but " ", `User` yields the first field of the first password
      line whose third field is the uid, and never returns when none is. */
  lemma UserOfPasswd(lines: seq<string>, uid: string)
    requires uid != " "
    ensures var k := UidLine(lines, uid);
            User(Some(lines), uid) == if k < |lines| then Returns(PasswdFields(lines[k])[0]) else Spins
  {
    UserLoopSpec(lines, uid, "", " ");
  }

  // ---------------------------------------------------------------------------
  // User, as intended

  /** The lookup `User` is documented to perform: "UNKNOWN" when the uid is
      not found, as well as when the file cannot be opened. */
  function UserLookup(passwd: File, uid: string): (r: string)
    ensures passwd.None? ==> r == "UNKNOWN"
    ensures passwd.Some? ==>
              var k := UidLine(passwd.value, uid);
              r == if k < |passwd.value| then PasswdFields(passwd.value[k])[0] else "UNKNOWN"
  {
    match passwd
    case None => "UNKNOWN"
    case Some(lines) => FindUser(lines, uid)
  }

  function FindUser(lines: seq<string>, uid: string): (r: string)
    ensures var k := UidLine(lines, uid);
            r == if k < |lines| then PasswdFields(lines[k])[0] else "UNKNOWN"
  {
    if |lines| == 0 then "UNKNOWN"
    else
      var fs := PasswdFields(lines[0]);
      if |fs| >= 3 && fs[2] == uid then fs[0] else FindUser(lines[1..], uid)
  }

  /** For a uid the password file lists, the source's loop and the lookup
      agree. */
  lemma UserAgreesWhenListed(lines: seq<string>, uid: string)
    requires uid != " " && UidLine(lines, uid) < |lines|
    ensures User(Some(lines), uid) == Returns(UserLookup(Some(lines), uid))
  {
    UserOfPasswd(lines, uid);
  }

  /** A uid the password file does not list: the lookup answers "UNKNOWN",
      the source's loop never returns. */
  lemma UserSpinsOnUnlistedUid(lines: seq<string>, uid: string)
    requires uid != " "
    requires forall j :: 0 <= j < |lines| ==> |PasswdFields(lines[j])| < 3 || PasswdFields(lines[j])[2] != uid
    ensures User(Some(lines), uid) == Spins
    ensures UserLookup(Some(lines), uid) == "UNKNOWN"
  {
    UserOfPasswd(lines, uid);
    assert UidLine(lines, uid) == |lines|;
  }
}
