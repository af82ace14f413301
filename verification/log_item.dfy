/** The pure part of the log-line view: the level read from a log message and
    the colour class chosen for a level. */
module LogItem {
  import opened Text

  const Space: char := ' '
  const DefaultLevel: string := "INFO"

  const Red: string := "text-red-400"
  const Yellow: string := "text-yellow-400"
  const Blue: string := "text-blue-400"
  const Gray: string := "text-gray-400"

  /** The whole-token, case-sensitive match of `^(INFO|ERROR|WARN|DEBUG)$`.
      A level name is a short upper-case word without spaces: it can only ever
      be a whole token of a split line, and no lower-case spelling matches. */
  predicate IsLevelName(t: string): (r: bool)
    ensures r ==> 4 <= |t| <= 5 && Space !in t
    ensures r ==> forall i :: 0 <= i < |t| ==> 'A' <= t[i] <= 'Z'
  {
    t == "INFO" || t == "ERROR" || t == "WARN" || t == "DEBUG"
  }

  /** What the view shows: the level badge and the remaining message text. */
  datatype ParsedLog = ParsedLog(level: string, message: string)

  /** The third space-separated token is the level when it is one of the four
      names; the displayed message is then the tokens after it. Otherwise the
      level is INFO and the message is shown as is. */
  function ParseLog(msg: string): (r: ParsedLog)
    ensures IsLevelName(r.level)
    ensures r.message == msg || |r.message| < |msg|
  {
    var parts := Split(msg, Space);
    if |parts| > 2 && IsLevelName(parts[2]) then
      JoinSplit(msg, Space);
      JoinDropShorter(parts, Space, 3);
      ParsedLog(parts[2], Join(parts[3..], Space))
    else
      ParsedLog(DefaultLevel, msg)
  }

  /** With fewer than two spaces there is no third token: INFO, message kept. */
  lemma ParseLogShortMessage(msg: string)
    requires Count(msg, Space) < 2
    ensures ParseLog(msg) == ParsedLog(DefaultLevel, msg)
  {
  }

  /** A third token that is not exactly a level name leaves the line alone. */
  lemma ParseLogUnrecognisedToken(msg: string)
    requires |Split(msg, Space)| > 2 && !IsLevelName(Split(msg, Space)[2])
    ensures ParseLog(msg) == ParsedLog(DefaultLevel, msg)
  {
  }

  /** The message is changed exactly when the third token is a level name; in
      that case the level is that token. */
  lemma ParseLogRecognisesIff(msg: string)
    ensures var parts := Split(msg, Space);
            (|parts| > 2 && IsLevelName(parts[2])) <==> ParseLog(msg).message != msg
    ensures var parts := Split(msg, Space);
            |parts| > 2 && IsLevelName(parts[2]) ==> ParseLog(msg).level == parts[2]
  {
    var parts := Split(msg, Space);
    if |parts| > 2 && IsLevelName(parts[2]) {
      JoinSplit(msg, Space);
      assert |parts[2]| > 0;
      JoinDropShorter(parts, Space, 3);
    }
  }

  /** A recognised line shows exactly the text after its third space; with no
      third space (three tokens) the shown message is empty. */
  lemma ParseLogMessageAfterThirdSpace(msg: string)
    requires |Split(msg, Space)| > 2 && IsLevelName(Split(msg, Space)[2])
    ensures |Split(msg, Space)| > 3 ==> IsSuffixAfterNth(msg, Space, 3, ParseLog(msg).message)
    ensures |Split(msg, Space)| == 3 ==> ParseLog(msg).message == ""
  {
    if |Split(msg, Space)| > 3 {
      JoinDropIsSuffixAfterNth(msg, Space, 3);
    }
  }

  /** A recognised line is its first two tokens, the level and the shown
      message, separated by single spaces: nothing else is lost. */
  lemma ParseLogReassembles(msg: string)
    requires |Split(msg, Space)| > 3 && IsLevelName(Split(msg, Space)[2])
    ensures var parts := Split(msg, Space);
            var r := ParseLog(msg);
            msg == parts[0] + [Space] + parts[1] + [Space] + r.level + [Space] + r.message
  {
    var parts := Split(msg, Space);
    var r := ParseLog(msg);
    assert r.level == parts[2] && r.message == Join(parts[3..], Space);
    JoinSplit(msg, Space);
    JoinUnfold(parts, Space);
    JoinUnfold(parts[1..], Space);
    JoinUnfold(parts[2..], Space);
    assert parts[1..][1..] == parts[2..];
    assert parts[2..][1..] == parts[3..];
    var j1 := Join(parts[1..], Space);
    var j2 := Join(parts[2..], Space);
    assert msg == parts[0] + [Space] + j1;
    assert j1 == parts[1] + [Space] + j2;
    assert j2 == r.level + [Space] + r.message;
    calc {
      msg;
      parts[0] + [Space] + (parts[1] + [Space] + (r.level + [Space] + r.message));
      { Concat7(parts[0], parts[1], r.level, r.message, [Space]); }
      parts[0] + [Space] + parts[1] + [Space] + r.level + [Space] + r.message;
    }
  }

  /** Regrouping a concatenation of seven pieces. */
  lemma Concat7(a: string, b: string, c: string, d: string, s: string)
    ensures a + s + (b + s + (c + s + d)) == a + s + b + s + c + s + d
  {
  }

  /** The colour class of a level badge. */
  function LevelColor(level: string): (cls: string)
    ensures cls in {Red, Yellow, Blue, Gray}
    ensures level == "ERROR" ==> cls == Red
    ensures level == "WARN" ==> cls == Yellow
    ensures level == "INFO" ==> cls == Blue
    ensures cls == Gray <==> level !in {"ERROR", "WARN", "INFO"}
  {
    match level
    case "ERROR" => Red
    case "WARN" => Yellow
    case "INFO" => Blue
    case _ => Gray
  }

  /** Distinct non-gray colours identify the level; among parsed levels only
      DEBUG falls to the default gray. */
  lemma LevelColorDistinguishes(a: string, b: string, msg: string)
    ensures LevelColor(a) == LevelColor(b) != Gray ==> a == b
    ensures LevelColor(ParseLog(msg).level) == Gray <==> ParseLog(msg).level == "DEBUG"
  {
  }
}
