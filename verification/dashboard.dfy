/** The web dashboard's pure logic (`app.js`): the md5 of a pasted string,
    the split of a server log line into its fields with the level's colour
    class, and the success and failure counts of the recent history. */
module Dashboard {
  import opened Wrappers
  import opened Strings
  import opened Seqs
  import Userscript

  /** The first run of 32 hexadecimal characters at or after `from`. */
  function FindHexRun(s: string, from: nat): (r: Option<nat>)
    ensures r.Some? ==> from <= r.value && Userscript.HexRunAt(s, r.value)
    ensures forall j :: from <= j && (r.None? || j < r.value) ==> !Userscript.HexRunAt(s, j)
    decreases |s| - from
  {
    if from + 32 > |s| then None
    else if Userscript.HexRunAt(s, from) then Some(from)
    else FindHexRun(s, from + 1)
  }

  /** `extractMD5`: the lower-cased first run of 32 hexadecimal characters anywhere in the input. */
  function ExtractMd5(input: string): (r: Option<string>)
    ensures r.None? <==> forall i :: !Userscript.HexRunAt(input, i)
    ensures r.Some? ==> exists i :: Userscript.HexRunAt(input, i) && (forall j :: 0 <= j < i ==> !Userscript.HexRunAt(input, j))
                                    && r.value == Lower(input[i..i + 32])
  {
    match FindHexRun(input, 0)
    case None => None
    case Some(i) =>
      assert Userscript.HexRunAt(input, i);
      Some(Lower(input[i..i + 32]))
  }

  /** Whatever the userscript extracts from a URL, the dashboard finds an md5 in it too. */
  lemma DashboardFindsWhatUserscriptFinds(url: string)
    requires Userscript.ExtractMd5(url).Some?
    ensures ExtractMd5(url).Some?
  {
    var i :| Userscript.Md5At(url, i);
    assert Userscript.HexRunAt(url, i + 5);
  }

  /** A bare hash, in either case, is its own md5. */
  lemma BareHash(h: string)
    requires |h| == 32 && forall j :: 0 <= j < 32 ==> Userscript.IsHex(h[j])
    ensures ExtractMd5(h) == Some(Lower(h))
  {
    assert Userscript.HexRunAt(h, 0);
    assert h[0..32] == h;
  }

  /** The dashboard is laxer than the userscript: a 33-character hex run
      after `/md5/` yields its first 32 characters here and nothing there. */
  lemma LaxerThanUserscript(h: string)
    requires |h| == 33 && forall j :: 0 <= j < 33 ==> Userscript.IsHex(h[j]) && !('A' <= h[j] <= 'Z')
    ensures ExtractMd5("/md5/" + h) == Some(h[..32])
    ensures Userscript.ExtractMd5("/md5/" + h).None?
  {
    var s := "/md5/" + h;
    Userscript.LongRunIsNoMd5(h);
    assert Userscript.HexRunAt(s, 5);
    forall j | 0 <= j < 5
      ensures !Userscript.HexRunAt(s, j)
    {
      assert s[4] == '/' && !Userscript.IsHex(s[4]);
    }
    var k := FindHexRun(s, 0).value;
    assert k == 5;
    assert s[5..37] == h[..32];
    assert Lower(s[5..37]) == s[5..37];
  }

  // ---- log lines ----

  /** A log line as shown: the whole line as the message, or the date,
      level and logger fields (each closed by `]`) and the message. */
  datatype LogLine = Plain(message: string) | Fields(date: string, level: string, logger: string, message: string)

  const Sep: string := "] "

  /** The split in `colorize`: fewer than three pieces leave the line whole;
      otherwise the first three pieces are the fields and the rest, joined
      back, the message. */
  function SplitLogLine(line: string): (r: LogLine)
    ensures |Split(line, Sep)| < 3 <==> r == Plain(line)
    ensures r.Fields? ==> EndsWith(r.date, "]") && EndsWith(r.level, "]") && EndsWith(r.logger, "]")
  {
    var parts := Split(line, Sep);
    if |parts| < 3 then Plain(line)
    else Fields(parts[0] + "]", parts[1] + "]", parts[2] + "]", Join(parts[3..], Sep))
  }

  /** With four or more pieces, the fields and message separated by spaces
      give the line back. */
  lemma RejoinLogLine(line: string)
    requires |Split(line, Sep)| >= 4
    ensures var r := SplitLogLine(line);
      r.Fields? && r.date + " " + r.level + " " + r.logger + " " + r.message == line
  {
    JoinSplit(line, Sep);
    RejoinFields(Split(line, Sep));
  }

  /** The first three pieces, each closed by `]` and followed by a space, and the rest joined. */
  lemma RejoinFields(parts: seq<string>)
    requires |parts| >= 4
    ensures (parts[0] + "]") + " " + (parts[1] + "]") + " " + (parts[2] + "]") + " " + Join(parts[3..], Sep) == Join(parts, Sep)
  {
    var p0, p1, p2, rest := parts[0], parts[1], parts[2], parts[3..];
    var m := Join(rest, Sep);
    var j2 := Join([p2] + rest, Sep);
    var j1 := Join([p1] + ([p2] + rest), Sep);
    JoinCons(p2, rest);
    JoinCons(p1, [p2] + rest);
    JoinCons(p0, [p1] + ([p2] + rest));
    assert parts == [p0] + ([p1] + ([p2] + rest));
    assert Join(parts, Sep) == p0 + Sep + j1;
    assert j1 == p1 + Sep + j2;
    assert j2 == p2 + Sep + m;
    ClosedField(p0);
    ClosedField(p1);
    ClosedField(p2);
  }

  /** A field closed by `]` and followed by a space ends in the separator. */
  lemma ClosedField(x: string)
    ensures (x + "]") + " " == x + Sep
  {
  }

  lemma JoinCons(x: string, xs: seq<string>)
    requires |xs| > 0
    ensures Join([x] + xs, Sep) == x + Sep + Join(xs, Sep)
  {
    assert ([x] + xs)[1..] == xs;
  }

  /** The level's colour class. */
  datatype LevelClass = Debug | Info | Warning | Error

  /** The class added, by the first test that matches: DEBUG, INFO,
      WARNING or WARN, ERROR; none for other levels. */
  function ClassOf(level: string): (r: Option<LevelClass>)
    ensures r == Some(Debug) <==> Contains(level, "[DEBUG")
    ensures r == Some(Info) <==> !Contains(level, "[DEBUG") && Contains(level, "[INFO")
    ensures r == Some(Warning) <==> !Contains(level, "[DEBUG") && !Contains(level, "[INFO") && Contains(level, "[WARN")
    ensures r.None? <==> !Contains(level, "[DEBUG") && !Contains(level, "[INFO") && !Contains(level, "[WARN") && !Contains(level, "[ERROR")
  {
    WarningMentionsWarn(level);
    if Contains(level, "[DEBUG") then Some(Debug)
    else if Contains(level, "[INFO") then Some(Info)
    else if Contains(level, "[WARNING") || Contains(level, "[WARN") then Some(Warning)
    else if Contains(level, "[ERROR") then Some(Error)
    else None
  }

  /** `[WARNING` contains `[WARN`, so the first of the two tests is subsumed. */
  lemma WarningMentionsWarn(level: string)
    ensures Contains(level, "[WARNING") ==> Contains(level, "[WARN")
  {
    if Contains(level, "[WARNING") {
      var i := ContainsWitness(level, "[WARNING");
      assert level[i..i + 5] == level[i..i + 8][..5];
      ContainsAt(level, "[WARN", i);
    }
  }

  /** The first `] ` is found after a piece that has none. */
  lemma SplitAtSep(s: string, x: string, y: string)
    requires s == x + Sep + y && !Contains(x, Sep)
    ensures Split(s, Sep) == [x] + Split(y, Sep)
  {
    assert s[|x|..|x| + 2] == Sep;
    forall j | 0 <= j < |x|
      ensures !OccursAt(s, Sep, j)
    {
      if j + 2 <= |x| {
        assert s[j..j + 2] == x[j..j + 2];
        if OccursAt(x, Sep, j) {
          ContainsAt(x, Sep, j);
        }
      } else {
        assert j + 1 == |x| && s[|x|] == s[|x|..|x| + 2][0] == ']';
        assert s[j..j + 2][1] == s[j + 1];
      }
    }
    var k := IndexOf(s, Sep);
    assert OccursAt(s, Sep, |x|);
    assert k.Some? && !(k.value < |x|);
    assert s[|x| + 2..] == y;
    assert s[..|x|] == x;
  }

  /** A line in the server's log format `[date] [LEVEL] [logger] message`
      splits back into its fields when the three fields hold no `] `. */
  lemma {:induction false} SplitsServerLine(date: string, level: string, logger: string, message: string)
    requires !Contains("[" + date, Sep) && !Contains("[" + level, Sep) && !Contains("[" + logger, Sep)
    ensures SplitLogLine("[" + date + Sep + ("[" + level + Sep + ("[" + logger + Sep + message)))
      == Fields("[" + date + "]", "[" + level + "]", "[" + logger + "]", message)
  {
    var a := "[" + date;
    var b := "[" + level;
    var c := "[" + logger;
    SplitThree(a, b, c, message);
    var parts := Split(a + Sep + (b + Sep + (c + Sep + message)), Sep);
    assert parts[3..] == Split(message, Sep);
    JoinSplit(message, Sep);
  }

  lemma SplitThree(a: string, b: string, c: string, m: string)
    requires !Contains(a, Sep) && !Contains(b, Sep) && !Contains(c, Sep)
    ensures Split(a + Sep + (b + Sep + (c + Sep + m)), Sep) == [a, b, c] + Split(m, Sep)
  {
    var t2 := b + Sep + (c + Sep + m);
    SplitTwo(b, c, m);
    SplitAtSep(a + Sep + t2, a, t2);
    var p1 := Split(a + Sep + t2, Sep);
    assert p1 == [a] + ([b, c] + Split(m, Sep));
  }

  lemma SplitTwo(b: string, c: string, m: string)
    requires !Contains(b, Sep) && !Contains(c, Sep)
    ensures Split(b + Sep + (c + Sep + m), Sep) == [b, c] + Split(m, Sep)
  {
    var t3 := c + Sep + m;
    SplitAtSep(t3, c, m);
    SplitAtSep(b + Sep + t3, b, t3);
    var p2 := Split(b + Sep + t3, Sep);
    assert p2 == [b] + ([c] + Split(m, Sep));
  }

  /** The standard level names get their classes; CRITICAL gets none. */
  lemma DebugLevel()
    ensures ClassOf("[DEBUG]") == Some(Debug)
  {
    assert "[DEBUG]"[0..6] == "[DEBUG";
    ContainsAt("[DEBUG]", "[DEBUG", 0);
  }

  lemma WarningLevel()
    ensures ClassOf("[WARNING]") == Some(Warning)
  {
    assert "[WARNING]"[0..5] == "[WARN";
    ContainsAt("[WARNING]", "[WARN", 0);
    NotAfterBracket("[WARNING]", "[DEBUG");
    NotAfterBracket("[WARNING]", "[INFO");
  }

  lemma CriticalLevel()
    ensures ClassOf("[CRITICAL]").None?
  {
    NotAfterBracket("[CRITICAL]", "[DEBUG");
    NotAfterBracket("[CRITICAL]", "[INFO");
    NotAfterBracket("[CRITICAL]", "[WARN");
    NotAfterBracket("[CRITICAL]", "[ERROR");
  }

  /** In a bracketed name with no other `[`, a `[`-led pattern can only
      occur at the start. */
  lemma NotAfterBracket(s: string, p: string)
    requires |s| > 0 && s[0] == '[' && forall j :: 0 < j < |s| ==> s[j] != '['
    requires |p| > 1 && p[0] == '[' && |s| > 1 && s[1] != p[1]
    ensures !Contains(s, p)
  {
    if Contains(s, p) {
      var i := ContainsWitness(s, p);
    }
  }

  // ---- history statistics ----

  /** A history entry; only its success flag matters here. */
  datatype Entry = Entry(success: bool)

  predicate Succeeded(e: Entry) {
    e.success
  }

  /** The success and failure counts shown on the dashboard. */
  function Stats(history: seq<Entry>): (r: (nat, nat))
    ensures r.0 + r.1 == |history|
    ensures r.0 == |Filter(history, Succeeded)| && r.1 == |Filter(history, Not(Succeeded))|
  {
    FilterSplitsMultiset(history, Succeeded);
    assert |multiset(Filter(history, Succeeded))| == |Filter(history, Succeeded)|;
    assert |multiset(Filter(history, Not(Succeeded)))| == |Filter(history, Not(Succeeded))|;
    assert |multiset(history)| == |history|;
    (|Filter(history, Succeeded)|, |Filter(history, Not(Succeeded))|)
  }
}
