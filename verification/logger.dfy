/**
 * The logger's level filter and line format. The current level comes from
 * the `LOG_LEVEL` environment variable, defaulting to INFO; a message is
 * written when its level's priority is at most the current level's. The
 * console writes and the clock are left out: the timestamp is a parameter
 * and the functions return the line that would be written.
 */
module Logger {
  import opened Base

  datatype Level = Error | Warn | Info | Debug

  /** The level's name as written in the line and in `LOG_LEVEL`. */
  function LevelName(l: Level): string
  {
    match l
    case Error => "ERROR"
    case Warn => "WARN"
    case Info => "INFO"
    case Debug => "DEBUG"
  }

  /** `LEVEL_PRIORITIES`: ERROR 0, WARN 1, INFO 2, DEBUG 3. */
  function Priority(l: Level): (p: nat)
    ensures p <= 3
  {
    match l
    case Error => 0
    case Warn => 1
    case Info => 2
    case Debug => 3
  }

  /** The level a name denotes, if any: the priority table is keyed by the exact upper-case names. */
  function LevelNamed(name: string): (r: Option<Level>)
    ensures r.None? <==> forall l: Level :: LevelName(l) != name
    ensures r.Some? ==> LevelName(r.value) == name
  {
    if name == "ERROR" then assert LevelName(Error) == name; Some(Error)
    else if name == "WARN" then assert LevelName(Warn) == name; Some(Warn)
    else if name == "INFO" then assert LevelName(Info) == name; Some(Info)
    else if name == "DEBUG" then assert LevelName(Debug) == name; Some(Debug)
    else
      assert forall l: Level :: LevelName(l) != name by {
        forall l: Level ensures LevelName(l) != name { }
      }
      None
  }

  /** `process.env.LOG_LEVEL || 'INFO'`: an unset or empty variable means INFO. */
  function CurrentLevel(env: Option<string>): (name: string)
    ensures env.Some? && env.value != "" ==> name == env.value
    ensures env.None? || env.value == "" ==> name == "INFO"
  {
    match env
    case Some(v) => if v != "" then v else "INFO"
    case None => "INFO"
  }

  /**
   * `shouldLog(level)`. A current level outside the table has an undefined
   * priority, and a comparison with undefined is false, so nothing passes.
   */
  function ShouldLog(l: Level, current: string): (b: bool)
    ensures b ==> LevelNamed(current).Some?
    ensures b <==> exists c: Level :: LevelName(c) == current && Priority(l) <= Priority(c)
  {
    match LevelNamed(current)
    case None => false
    case Some(c) => Priority(l) <= Priority(c)
  }

  /** Under every known current level, a level passes exactly when its priority is at most the current one's. */
  lemma ShouldLogByPriority(l: Level)
    ensures forall c: Level :: ShouldLog(l, LevelName(c)) <==> Priority(l) <= Priority(c)
  {
    forall c: Level
      ensures ShouldLog(l, LevelName(c)) <==> Priority(l) <= Priority(c)
    {
      assert LevelNamed(LevelName(c)) == Some(c);
    }
  }

  /** The filter is monotone: when a level passes, every more severe level passes too. */
  lemma ShouldLogMonotone(l: Level, m: Level, current: string)
    requires ShouldLog(l, current) && Priority(m) <= Priority(l)
    ensures ShouldLog(m, current)
  {
  }

  /** With the default level, ERROR, WARN and INFO pass and DEBUG is suppressed. */
  lemma DefaultLevelFilter(l: Level)
    ensures ShouldLog(l, CurrentLevel(None)) <==> l != Debug
  {
  }

  /** A level always passes when it is itself the current level, and ERROR passes under every known level. */
  lemma OwnLevelPasses(l: Level)
    ensures ShouldLog(l, LevelName(l))
    ensures ShouldLog(Error, LevelName(l))
  {
  }

  /** An unknown current level, lower-case names included, suppresses everything. */
  lemma UnknownLevelSilent(l: Level, current: string)
    requires forall m: Level :: LevelName(m) != current
    ensures !ShouldLog(l, current)
  {
  }

  /**
   * `formatLog(level, message, data)`: `[timestamp] [LEVEL] message`, then a
   * newline and the JSON text of `data` when `data` is truthy (`json`
   * is `None` otherwise).
   */
  function FormatLog(timestamp: string, l: Level, message: string, json: Option<string>): (line: string)
    ensures StartsWith(line, "[" + timestamp + "] [" + LevelName(l) + "] ")
    ensures |line| == |timestamp| + |LevelName(l)| + |message| + 6 + (match json case Some(j) => |j| + 1 case None => 0)
    ensures json.None? ==> line == "[" + timestamp + "] [" + LevelName(l) + "] " + message
    ensures json.Some? ==> line == "[" + timestamp + "] [" + LevelName(l) + "] " + message + "\n" + json.value
  {
    var head := "[" + timestamp + "] [" + LevelName(l) + "] " + message;
    match json
    case Some(j) => head + "\n" + j
    case None => head
  }

  /**
   * The first line of the output is the header with the message, whatever
   * the data; without data there is no second line.
   */
  lemma {:induction false} FormatLogLines(timestamp: string, l: Level, message: string, json: Option<string>)
    requires '\n' !in timestamp && '\n' !in message
    ensures var head := "[" + timestamp + "] [" + LevelName(l) + "] " + message;
            Field(FormatLog(timestamp, l, message, json), '\n', 0) == Some(head)
            && (json.None? ==> Split(FormatLog(timestamp, l, message, json), '\n') == [head])
  {
    var head := "[" + timestamp + "] [" + LevelName(l) + "] " + message;
    assert '\n' !in head by {
      assert forall k :: 0 <= k < |head| ==> head[k] != '\n' by {
        assert forall k :: 0 <= k < |timestamp| ==> timestamp[k] != '\n';
        assert forall k :: 0 <= k < |message| ==> message[k] != '\n';
      }
    }
    match json
    case Some(j) =>
      FirstPiece(head, j, '\n');
    case None =>
      SplitPieces(head, '\n');
  }

  /** What calling `error`/`warn`/`info`/`debug` writes: the formatted line, or nothing when filtered out. */
  function Emit(l: Level, current: string, timestamp: string, message: string, json: Option<string>): (out: Option<string>)
    ensures out.Some? <==> ShouldLog(l, current)
    ensures out.Some? ==> StartsWith(out.value, "[" + timestamp + "] [" + LevelName(l) + "] ")
  {
    if ShouldLog(l, current) then Some(FormatLog(timestamp, l, message, json)) else None
  }
}
