/**
 * The name of the run's log file (`getLogFileName`): the start time in
 * ISO-8601 form (`YYYY-MM-DDTHH:MM:SS.sssZ`) rewritten by four regular
 * expression replacements into a file-name friendly timestamp.
 */
module LogName {

  const LogFolder := "./log"

  /** `s` does not contain the character `c`. */
  predicate Lacks(s: string, c: char) {
    forall j :: 0 <= j < |s| ==> s[j] != c
  }

  /** `s.replace(/[from]/g, to)` for a one-character replacement. */
  function ReplaceAll(s: string, from: char, to: char): (r: string)
    ensures |r| == |s|
  {
    seq(|s|, j requires 0 <= j < |s| => if s[j] == from then to else s[j])
  }

  /** `s.replace(/[c]/g, '')`. */
  function RemoveAll(s: string, c: char): (r: string)
    decreases |s|
  {
    if s == [] then [] else (if s[0] == c then [] else [s[0]]) + RemoveAll(s[1..], c)
  }

  /** Index of the first '.' in `s`, or `|s|` when there is none. */
  function FirstDot(s: string): (i: nat)
    ensures i <= |s|
    ensures i < |s| ==> s[i] == '.'
    ensures Lacks(s[..i], '.')
    decreases |s|
  {
    if s == [] || s[0] == '.' then 0
    else
      var i := 1 + FirstDot(s[1..]);
      assert s[..i] == [s[0]] + s[1..][..i - 1];
      i
  }

  /** `s.replace(/\..+/, '')`: from the first '.' that has a character after it, drop the rest. */
  function CutAtDot(s: string): (r: string) {
    var i := FirstDot(s);
    if i + 1 < |s| then s[..i] else s
  }

  /** The timestamp part of the log file name. */
  function LogTimestamp(iso: string): (r: string) {
    ReplaceAll(CutAtDot(RemoveAll(ReplaceAll(iso, 'T', ' '), 'Z')), ':', '-')
  }

  /** `getLogFileName`, for the ISO text of the current time. */
  function GetLogFileName(iso: string): (r: string) {
    LogFolder + "/folderize_" + LogTimestamp(iso) + ".log"
  }

  // ---------------------------------------------------------------------
  // Properties of the four rewriting steps

  lemma ReplaceAllAppend(a: string, b: string, from: char, to: char)
    ensures ReplaceAll(a + b, from, to) == ReplaceAll(a, from, to) + ReplaceAll(b, from, to)
  {
  }

  lemma ReplaceAllAbsent(s: string, from: char, to: char)
    requires Lacks(s, from)
    ensures ReplaceAll(s, from, to) == s
  {
  }

  /** After a replacement, the replaced character is gone and no other character appears. */
  lemma ReplaceAllLacks(s: string, from: char, to: char, c: char)
    requires from != to
    requires c == from || (c != to && Lacks(s, c))
    ensures Lacks(ReplaceAll(s, from, to), c)
  {
  }

  lemma {:induction false} RemoveAllAppend(a: string, b: string, c: char)
    ensures RemoveAll(a + b, c) == RemoveAll(a, c) + RemoveAll(b, c)
    decreases |a|
  {
    if a == [] {
      assert a + b == b;
    } else {
      assert (a + b)[0] == a[0];
      assert (a + b)[1..] == a[1..] + b;
      RemoveAllAppend(a[1..], b, c);
    }
  }

  lemma {:induction false} RemoveAllAbsent(s: string, c: char)
    requires Lacks(s, c)
    ensures RemoveAll(s, c) == s
    decreases |s|
  {
    if s != [] {
      RemoveAllAbsent(s[1..], c);
    }
  }

  /** Removal leaves no `c` and keeps every absent character absent. */
  lemma {:induction false} RemoveAllLacks(s: string, c: char, d: char)
    requires d == c || Lacks(s, d)
    ensures Lacks(RemoveAll(s, c), d)
    decreases |s|
  {
    if s != [] {
      RemoveAllLacks(s[1..], c, d);
    }
  }

  /** Cutting only ever keeps a prefix. */
  lemma CutAtDotPrefix(s: string)
    ensures |CutAtDot(s)| <= |s| && CutAtDot(s) == s[..|CutAtDot(s)|]
  {
  }

  /** The first '.' is found past a '.'-free prefix. */
  lemma {:induction false} FirstDotAfter(a: string, b: string)
    requires Lacks(a, '.')
    ensures FirstDot(a + "." + b) == |a|
    decreases |a|
  {
    if a != [] {
      assert (a + "." + b)[1..] == a[1..] + "." + b;
      FirstDotAfter(a[1..], b);
    }
  }

  // ---------------------------------------------------------------------
  // What getLogFileName promises

  /** The timestamp never contains 'T', 'Z' or ':', whatever the input. */
  lemma LogTimestampClean(iso: string)
    ensures Lacks(LogTimestamp(iso), 'T')
    ensures Lacks(LogTimestamp(iso), 'Z')
    ensures Lacks(LogTimestamp(iso), ':')
  {
    var s1 := ReplaceAll(iso, 'T', ' ');
    var s2 := RemoveAll(s1, 'Z');
    var s3 := CutAtDot(s2);
    ReplaceAllLacks(iso, 'T', ' ', 'T');
    RemoveAllLacks(s1, 'Z', 'Z');
    RemoveAllLacks(s1, 'Z', 'T');
    CutAtDotPrefix(s2);
    assert Lacks(s3, 'T') && Lacks(s3, 'Z');
    ReplaceAllLacks(s3, ':', '-', 'T');
    ReplaceAllLacks(s3, ':', '-', 'Z');
    ReplaceAllLacks(s3, ':', '-', ':');
  }

  /** A field of an ISO timestamp: none of the separators the rewriting looks at. */
  predicate PlainField(s: string) {
    Lacks(s, 'T') && Lacks(s, 'Z') && Lacks(s, ':') && Lacks(s, '.')
  }

  /** The text `Date.toISOString` produces from its fields. */
  function IsoText(year: string, month: string, day: string,
                   hour: string, minute: string, second: string, millis: string): (r: string)
  {
    year + "-" + month + "-" + day + "T" + hour + ":" + minute + ":" + second + "." + millis + "Z"
  }

  lemma LacksAppend(a: string, b: string, c: char)
    requires Lacks(a, c) && Lacks(b, c)
    ensures Lacks(a + b, c)
  {
    forall j | 0 <= j < |a + b| ensures (a + b)[j] != c {
      if j >= |a| {
        assert (a + b)[j] == b[j - |a|];
      }
    }
  }

  /** A character that occurs nowhere else is replaced just where it stands between two pieces. */
  lemma ReplaceBetween(a: string, b: string, from: char, to: char)
    requires Lacks(a, from) && Lacks(b, from)
    ensures ReplaceAll(a + [from] + b, from, to) == a + [to] + b
  {
    ReplaceAllAppend(a + [from], b, from, to);
    ReplaceAllAppend(a, [from], from, to);
    ReplaceAllAbsent(a, from, to);
    ReplaceAllAbsent(b, from, to);
  }

  /** Step one: the 'T' between date and time becomes a space. */
  lemma StepT(date: string, time: string, rest: string)
    requires Lacks(date, 'T') && Lacks(time, 'T') && Lacks(rest, 'T')
    ensures ReplaceAll(date + "T" + time + rest, 'T', ' ') == date + " " + time + rest
  {
    LacksAppend(time, rest, 'T');
    assert date + "T" + time + rest == date + ['T'] + (time + rest);
    ReplaceBetween(date, time + rest, 'T', ' ');
  }

  /** Step two: the final 'Z' is removed. */
  lemma StepZ(s: string)
    requires Lacks(s, 'Z')
    ensures RemoveAll(s + "Z", 'Z') == s
  {
    RemoveAllAppend(s, "Z", 'Z');
    RemoveAllAbsent(s, 'Z');
  }

  /** Step four: the two ':' of the time become '-'. */
  lemma StepColons(date: string, hour: string, minute: string, second: string)
    requires Lacks(date, ':') && Lacks(hour, ':') && Lacks(minute, ':') && Lacks(second, ':')
    ensures ReplaceAll(date + " " + hour + ":" + minute + ":" + second, ':', '-')
         == date + " " + hour + "-" + minute + "-" + second
  {
    var left := date + " " + hour;
    assert Lacks(" ", ':');
    LacksAppend(date, " ", ':');
    LacksAppend(date + " ", hour, ':');
    assert date + " " + hour + ":" + minute == left + [':'] + minute;
    ReplaceBetween(left, minute, ':', '-');
    var left2 := left + "-" + minute;
    assert Lacks("-", ':');
    LacksAppend(left, "-", ':');
    LacksAppend(left + "-", minute, ':');
    ReplaceAllAppend(left + ":" + minute, ":" + second, ':', '-');
    ReplaceAllAppend([':'], second, ':', '-');
    ReplaceAllAbsent(second, ':', '-');
    assert left + ":" + minute + ":" + second == (left + ":" + minute) + (":" + second);
  }

  /** The date field `YYYY-MM-DD` holds none of the separators. */
  lemma DateLacks(year: string, month: string, day: string, c: char)
    requires Lacks(year, c) && Lacks(month, c) && Lacks(day, c) && c != '-'
    ensures Lacks(year + "-" + month + "-" + day, c)
  {
    LacksAppend(year, "-", c);
    LacksAppend(year + "-", month, c);
    LacksAppend(year + "-" + month, "-", c);
    LacksAppend(year + "-" + month + "-", day, c);
  }

  /** The time field `HH:MM:SS` holds no separator other than ':'. */
  lemma TimeLacks(hour: string, minute: string, second: string, c: char)
    requires Lacks(hour, c) && Lacks(minute, c) && Lacks(second, c) && c != ':'
    ensures Lacks(hour + ":" + minute + ":" + second, c)
  {
    LacksAppend(hour, ":", c);
    LacksAppend(hour + ":", minute, c);
    LacksAppend(hour + ":" + minute, ":", c);
    LacksAppend(hour + ":" + minute + ":", second, c);
  }

  /** The date and time joined by a space hold no 'T', 'Z' or '.'. */
  lemma HeadLacks(date: string, time: string, c: char)
    requires Lacks(date, c) && Lacks(time, c) && c != ' '
    ensures Lacks(date + " " + time, c)
  {
    LacksAppend(date, " ", c);
    LacksAppend(date + " ", time, c);
  }

  /** Steps one and two on an ISO text: the 'T' becomes a space and the 'Z' goes. */
  lemma StepsTZ(date: string, time: string, millis: string)
    requires Lacks(date, 'T') && Lacks(time, 'T') && Lacks(millis, 'T')
    requires Lacks(date + " " + time, 'Z') && Lacks(millis, 'Z')
    ensures RemoveAll(ReplaceAll(date + "T" + time + "." + millis + "Z", 'T', ' '), 'Z')
         == date + " " + time + "." + millis
  {
    var head := date + " " + time;
    assert Lacks(".", 'T') && Lacks("Z", 'T');
    LacksAppend(".", millis, 'T');
    LacksAppend("." + millis, "Z", 'T');
    assert date + "T" + time + "." + millis + "Z" == date + "T" + time + ("." + millis + "Z");
    StepT(date, time, "." + millis + "Z");
    assert date + " " + time + ("." + millis + "Z") == head + "." + millis + "Z";
    LacksAppend(head, ".", 'Z');
    LacksAppend(head + ".", millis, 'Z');
    StepZ(head + "." + millis);
  }

  /** The timestamp is the four steps applied in order. */
  lemma LogTimestampByStages(iso: string, s1: string, s2: string, head: string, stamp: string)
    requires ReplaceAll(iso, 'T', ' ') == s1
    requires RemoveAll(s1, 'Z') == s2
    requires CutAtDot(s2) == head
    requires ReplaceAll(head, ':', '-') == stamp
    ensures GetLogFileName(iso) == "./log/folderize_" + stamp + ".log"
  {
  }

  /** An ISO timestamp becomes `./log/folderize_YYYY-MM-DD HH-MM-SS.log`: the 'T' becomes a
      space, the colons dashes, and the fraction with the 'Z' is dropped. */
  lemma GetLogFileNameOfIso(year: string, month: string, day: string,
                            hour: string, minute: string, second: string, millis: string)
    requires PlainField(year) && PlainField(month) && PlainField(day)
    requires PlainField(hour) && PlainField(minute) && PlainField(second)
    requires PlainField(millis) && millis != []
    ensures GetLogFileName(IsoText(year, month, day, hour, minute, second, millis))
         == "./log/folderize_" + year + "-" + month + "-" + day + " "
            + hour + "-" + minute + "-" + second + ".log"
  {
    var date := year + "-" + month + "-" + day;
    var time := hour + ":" + minute + ":" + second;
    var head := date + " " + time;
    var iso := IsoText(year, month, day, hour, minute, second, millis);
    var stamp := date + " " + hour + "-" + minute + "-" + second;
    assert iso == date + "T" + time + "." + millis + "Z";

    DateLacks(year, month, day, 'T');
    DateLacks(year, month, day, 'Z');
    DateLacks(year, month, day, '.');
    DateLacks(year, month, day, ':');
    TimeLacks(hour, minute, second, 'T');
    TimeLacks(hour, minute, second, 'Z');
    TimeLacks(hour, minute, second, '.');
    HeadLacks(date, time, 'Z');
    HeadLacks(date, time, '.');
    var s1 := ReplaceAll(iso, 'T', ' ');
    StepsTZ(date, time, millis);
    FirstDotAfter(head, millis);
    assert CutAtDot(head + "." + millis) == head;
    assert head == date + " " + hour + ":" + minute + ":" + second;
    StepColons(date, hour, minute, second);
    LogTimestampByStages(iso, s1, head + "." + millis, head, stamp);
    FileNameLayout(year, month, day, hour, minute, second);
  }

  lemma FileNameLayout(year: string, month: string, day: string,
                       hour: string, minute: string, second: string)
    ensures "./log/folderize_" + (year + "-" + month + "-" + day + " " + hour + "-" + minute + "-" + second) + ".log"
         == "./log/folderize_" + year + "-" + month + "-" + day + " "
            + hour + "-" + minute + "-" + second + ".log"
  {
  }
}
