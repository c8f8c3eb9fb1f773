/**
 * The decisions of MARC2Solr::Conf#masterLogger: the log level, the
 * default log file's name (from the first input file, or the command),
 * and where the log goes. The logging backend and the clock are not
 * modelled; the timestamp is a parameter.
 */
module Logging {
  import opened Wrappers
  import opened Values
  import opened Schema
  import opened Setter
  import opened Solr
  import opened Reader

  /**
   * `gsub(/\..*$/, '')`: on every line, the first dot and everything after
   * it up to the line's end are removed.
   */
  function CutAtDot(s: string, cutting: bool): (r: string)
    ensures '.' !in r
    ensures |r| <= |s|
    decreases |s|
  {
    if s == [] then []
    else if s[0] == '\n' then "\n" + CutAtDot(s[1..], false)
    else if cutting || s[0] == '.' then CutAtDot(s[1..], true)
    else [s[0]] + CutAtDot(s[1..], false)
  }

  /** Once cutting, nothing of a one-line name is kept. */
  lemma {:induction false} CutDropsRest(s: string)
    requires '\n' !in s
    ensures CutAtDot(s, true) == []
    decreases |s|
  {
    if s != [] {
      CutDropsRest(s[1..]);
    }
  }

  /** On a one-line name, the cut keeps exactly what comes before the first dot. */
  lemma {:induction false} CutKeepsPrefix(s: string)
    requires '\n' !in s
    ensures var r := CutAtDot(s, false);
      r == s[..|r|] && (|r| < |s| ==> s[|r|] == '.')
    decreases |s|
  {
    if s != [] {
      if s[0] == '.' {
        CutDropsRest(s[1..]);
      } else {
        CutKeepsPrefix(s[1..]);
      }
    }
  }

  /** The default log file's base: the first input file's (or else the command's) base name, cut at its first dot. */
  function LogBaseName(rest: seq<string>, command: string): string
  {
    var first := if rest != [] then rest[0] else command;
    CutAtDot(Basename(first), false)
  }

  /** Where the log goes. */
  datatype LogTarget =
    | Console             // standard error
    | ToFile(file: Value) // a log file
    | NoLog               // no log output

  /** The logger's level and target. */
  datatype LoggerPlan = LoggerPlan(level: string, target: LogTarget)

  /** The log level option is not a string, so it has no `downcase`. */
  datatype LogError = LevelNotText(value: Value)

  /** The logger set-up for the resolved options; `stamp` is the formatted start time. */
  function LoggerSetup(store: Store, rest: seq<string>, command: string, stamp: string): Result<LoggerPlan, LogError>
  {
    var level, logfile := Lookup(store, Loglevel), Lookup(store, Logfile);
    if !level.Str? then Failure(LevelNotText(level))
    else
      var target :=
        if logfile == Str("STDERR") then Console
        else if logfile == Str("DEFAULT") then ToFile(Str(LogBaseName(rest, command) + "-" + stamp + ".log"))
        else if logfile == Str("NONE") || logfile == Nil then NoLog
        else ToFile(logfile);
      Success(LoggerPlan(Lower(level.s), target))
  }

  /** The log goes to standard error exactly for STDERR, nowhere exactly for NONE or nil, and otherwise to a file. */
  lemma TargetChoice(store: Store, rest: seq<string>, command: string, stamp: string)
    requires LoggerSetup(store, rest, command, stamp).Success?
    ensures var t, f := LoggerSetup(store, rest, command, stamp).value.target, Lookup(store, Logfile);
      && (t == Console <==> f == Str("STDERR"))
      && (t == NoLog <==> f == Str("NONE") || f == Nil)
      && (t.ToFile? && f != Str("DEFAULT") ==> t.file == f)
  {
  }

  /**
   * DEFAULT names the log after the first input file: its base name up to
   * the first dot, then the timestamp, then ".log".
   */
  lemma DefaultLogFile(store: Store, rest: seq<string>, command: string, stamp: string)
    requires Lookup(store, Loglevel).Str? && Lookup(store, Logfile) == Str("DEFAULT")
    requires rest != [] && '\n' !in rest[0]
    ensures var base := LogBaseName(rest, command);
      && LoggerSetup(store, rest, command, stamp) == Success(LoggerPlan(Lower(Lookup(store, Loglevel).s),
           ToFile(Str(base + "-" + stamp + ".log"))))
      && base == Basename(rest[0])[..|base|]
      && '.' !in base
  {
    BasenameLines(rest[0]);
    CutKeepsPrefix(Basename(rest[0]));
  }

  /** The base name of a one-line path is one line. */
  lemma BasenameLines(s: string)
    requires '\n' !in s
    ensures '\n' !in Basename(s)
  {
    var t := StripTrailingSlashes(s);
    assert forall i :: 0 <= i < |t| ==> t[i] == s[i];
    var r := AfterLastSlash(t);
    assert forall i :: 0 <= i < |r| ==> r[i] == t[|t| - |r| + i];
  }

  /** Setting the logfile option to "none" (any case) turns logging off. */
  lemma NoneTurnsLoggingOff(store: Store, s: string, canOpen: string -> bool, rest: seq<string>, command: string,
                            stamp: string)
    requires Lower(s) == "none"
    requires Lookup(store, Loglevel).Str?
    ensures var after := Apply(store, Name(Logfile), Str(s), canOpen).store;
      LoggerSetup(after, rest, command, stamp).Success? &&
      LoggerSetup(after, rest, command, stamp).value.target == NoLog
  {
    assert SaysNone(Str(s));
    NoneClears(store, Name(Logfile), Logfile, Str(s), canOpen);
  }
}
