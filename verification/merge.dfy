/**
 * The three-tier merge of MARC2Solr::Conf#initialize as functions:
 * configuration-file directives are applied in file order, the "_given"
 * markers are separated from the parsed command line, and each remaining
 * command-line value is applied as an override when it was given, or as a
 * default only when the store lacks its option.
 */
module Merge {
  import opened Wrappers
  import opened Values
  import opened Schema
  import opened Setter

  /** One assignment: a directive of a configuration file, or an entry of the parsed command line. */
  datatype Directive = Directive(name: string, arg: Value)

  /** The next directive through the setter, unless an earlier one aborted. */
  function Then(r: Result<Store, Error>, d: Directive, canOpen: string -> bool): Result<Store, Error>
  {
    match r
    case Failure(e) => Failure(e)
    case Success(s) =>
      var o := Apply(s, d.name, d.arg, canOpen);
      if o.result.Failure? then Failure(o.result.error) else Success(o.store)
  }

  /** A step succeeds only after a success, and only when its call of the setter does. */
  lemma ThenSucceeds(r: Result<Store, Error>, d: Directive, canOpen: string -> bool)
    requires Then(r, d, canOpen).Success?
    ensures r.Success? && Apply(r.value, d.name, d.arg, canOpen).result.Success?
    ensures Then(r, d, canOpen).value == Apply(r.value, d.name, d.arg, canOpen).store
  {
  }

  /** The directives of one configuration file, in order; the first failure aborts. */
  function Run(store: Store, ds: seq<Directive>, canOpen: string -> bool): Result<Store, Error>
    decreases |ds|
  {
    if ds == [] then Success(store)
    else Then(Run(store, ds[..|ds| - 1], canOpen), ds[|ds| - 1], canOpen)
  }

  /** More directives after an outcome that may already be a failure. */
  function AndThen(r: Result<Store, Error>, ds: seq<Directive>, canOpen: string -> bool): Result<Store, Error>
  {
    match r
    case Failure(e) => Failure(e)
    case Success(s) => Run(s, ds, canOpen)
  }

  /** The configuration files, in the order they are listed. */
  function RunFiles(store: Store, files: seq<seq<Directive>>, canOpen: string -> bool): Result<Store, Error>
    decreases |files|
  {
    if files == [] then Success(store)
    else AndThen(RunFiles(store, files[..|files| - 1], canOpen), files[|files| - 1], canOpen)
  }

  /** All files' directives, one file after another. */
  function Concat(files: seq<seq<Directive>>): seq<Directive>
    decreases |files|
  {
    if files == [] then [] else Concat(files[..|files| - 1]) + files[|files| - 1]
  }

  /** Running two directive lists one after the other is running their concatenation. */
  lemma {:induction false} RunAppend(store: Store, a: seq<Directive>, b: seq<Directive>, canOpen: string -> bool)
    ensures Run(store, a + b, canOpen) == AndThen(Run(store, a, canOpen), b, canOpen)
    decreases |b|
  {
    if b == [] {
      assert a + b == a;
      match Run(store, a, canOpen)
      case Failure(_) =>
      case Success(_) =>
    } else {
      var b' := b[..|b| - 1];
      assert (a + b)[..|a + b| - 1] == a + b';
      assert (a + b)[|a + b| - 1] == b[|b| - 1];
      RunAppend(store, a, b', canOpen);
      match Run(store, a, canOpen)
      case Failure(_) =>
      case Success(_) =>
    }
  }

  /** Reading the files one by one is the same as one stream of their directives in file order. */
  lemma {:induction false} FilesInOrder(store: Store, files: seq<seq<Directive>>, canOpen: string -> bool)
    ensures RunFiles(store, files, canOpen) == Run(store, Concat(files), canOpen)
    decreases |files|
  {
    if files != [] {
      var init := files[..|files| - 1];
      FilesInOrder(store, init, canOpen);
      RunAppend(store, Concat(init), files[|files| - 1], canOpen);
    }
  }

  /** The directive is refused for its name: an accessor, or a rewritten name that is not an option. */
  predicate Unknown(d: Directive)
  {
    var r := Negate(MethodName(d.name), d.arg);
    IsAccessor(d.name) || (r.Some? && Parse(r.value.0).None?)
  }

  /** A step that succeeds followed a success and met a known name. */
  lemma ThenKnown(r: Result<Store, Error>, d: Directive, canOpen: string -> bool)
    requires Then(r, d, canOpen).Success?
    ensures r.Success? && !Unknown(d)
  {
    ThenSucceeds(r, d, canOpen);
    UnknownNameRefused(r.value, d.name, d.arg, canOpen);
  }

  /** A run that succeeds met no unknown name: one unknown directive anywhere aborts the run. */
  lemma {:induction false} SuccessMeansAllKnown(store: Store, ds: seq<Directive>, canOpen: string -> bool)
    requires Run(store, ds, canOpen).Success?
    ensures forall i :: 0 <= i < |ds| ==> !Unknown(ds[i])
    decreases |ds|
  {
    if ds != [] {
      LastKnown(store, ds, canOpen);
      SuccessMeansAllKnown(store, ds[..|ds| - 1], canOpen);
      KnownAppend(ds[..|ds| - 1], ds);
    }
  }

  /** A run that succeeds succeeded before its last directive, whose name is known. */
  lemma LastKnown(store: Store, ds: seq<Directive>, canOpen: string -> bool)
    requires ds != [] && Run(store, ds, canOpen).Success?
    ensures Run(store, ds[..|ds| - 1], canOpen).Success? && !Unknown(ds[|ds| - 1])
  {
    var r := Run(store, ds[..|ds| - 1], canOpen);
    assert Run(store, ds, canOpen) == Then(r, ds[|ds| - 1], canOpen);
    ThenKnown(r, ds[|ds| - 1], canOpen);
  }

  /** Known directives followed by a known last one are all known. */
  lemma KnownAppend(init: seq<Directive>, ds: seq<Directive>)
    requires ds != [] && init == ds[..|ds| - 1]
    requires forall i :: 0 <= i < |init| ==> !Unknown(init[i])
    requires !Unknown(ds[|ds| - 1])
    ensures forall i :: 0 <= i < |ds| ==> !Unknown(ds[i])
  {
    forall i | 0 <= i < |init|
      ensures !Unknown(ds[i])
    {
      assert init[i] == ds[i];
    }
  }

  /** The directive may change option k. */
  predicate Targets(d: Directive, k: Key)
  {
    Target(d.name, d.arg) == Some(k)
  }

  /** Directives that do not target an option leave its entry as it was. */
  lemma {:induction false} RunKeepsUntargeted(store: Store, ds: seq<Directive>, canOpen: string -> bool, k: Key)
    requires forall i :: 0 <= i < |ds| ==> !Targets(ds[i], k)
    requires Run(store, ds, canOpen).Success?
    ensures var t := Run(store, ds, canOpen).value;
      (k in t <==> k in store) && (k in store ==> t[k] == store[k])
    decreases |ds|
  {
    if ds != [] {
      var init := ds[..|ds| - 1];
      assert forall i :: 0 <= i < |init| ==> init[i] == ds[i];
      RunKeepsUntargeted(store, init, canOpen, k);
      var d := ds[|ds| - 1];
      OnlyTargetChanges(Run(store, init, canOpen).value, d.name, d.arg, canOpen, k);
    }
  }

  /** Every run keeps the store well-formed. */
  lemma {:induction false} RunKeepsWellFormed(store: Store, ds: seq<Directive>, canOpen: string -> bool)
    requires WellFormed(store) && Run(store, ds, canOpen).Success?
    ensures WellFormed(Run(store, ds, canOpen).value)
    decreases |ds|
  {
    if ds != [] {
      var init := ds[..|ds| - 1];
      RunKeepsWellFormed(store, init, canOpen);
      var d := ds[|ds| - 1];
      ApplyKeepsWellFormed(Run(store, init, canOpen).value, d.name, d.arg, canOpen);
    }
  }

  /** Once a file prefix fails, the whole list of files fails with the same error. */
  lemma {:induction false} FilesFailureSticks(store: Store, files: seq<seq<Directive>>, m: nat, canOpen: string -> bool)
    requires m <= |files| && RunFiles(store, files[..m], canOpen).Failure?
    ensures RunFiles(store, files, canOpen) == RunFiles(store, files[..m], canOpen)
    decreases |files|
  {
    if m < |files| {
      var init := files[..|files| - 1];
      assert init[..m] == files[..m];
      FilesFailureSticks(store, init, m, canOpen);
    } else {
      assert files[..m] == files;
    }
  }

  /** Once a prefix of the directives fails, the whole run fails with the same error. */
  lemma {:induction false} RunFailureSticks(store: Store, ds: seq<Directive>, m: nat, canOpen: string -> bool)
    requires m <= |ds| && Run(store, ds[..m], canOpen).Failure?
    ensures Run(store, ds, canOpen) == Run(store, ds[..m], canOpen)
    decreases |ds|
  {
    if m < |ds| {
      var init := ds[..|ds| - 1];
      assert init[..m] == ds[..m];
      RunFailureSticks(store, init, m, canOpen);
    } else {
      assert ds[..m] == ds;
    }
  }

  // ---------------------------------------------------------------------------
  // The parsed command line

  /** A marker entry "x_given" that the option parser adds for an option x given on the command line. */
  predicate IsMarker(name: string)
  {
    |name| > 6 && name[|name| - 6..] == "_given"
  }

  /** The option name a marker is about. */
  function MarkerBase(name: string): string
    requires IsMarker(name)
  {
    name[..|name| - 6]
  }

  /** Entries removed before the merge: the config-file list, its marker, and all help entries. */
  predicate Discarded(name: string)
  {
    name == "config" || name == "config_given" || (|name| >= 4 && name[..4] == "help")
  }

  /** The command-line values left to merge, in their order. */
  function Settings(cmdline: seq<Directive>): (r: seq<Directive>)
    ensures forall i :: 0 <= i < |r| ==> !Discarded(r[i].name) && !IsMarker(r[i].name)
    ensures forall i :: 0 <= i < |r| ==> r[i] in cmdline
    decreases |cmdline|
  {
    if cmdline == [] then []
    else
      var init := Settings(cmdline[..|cmdline| - 1]);
      var e := cmdline[|cmdline| - 1];
      if Discarded(e.name) || IsMarker(e.name) then init else init + [e]
  }

  /** The options the command line marks as explicitly given. */
  function Markers(cmdline: seq<Directive>): set<string>
    decreases |cmdline|
  {
    if cmdline == [] then {}
    else
      var init := Markers(cmdline[..|cmdline| - 1]);
      var e := cmdline[|cmdline| - 1];
      if !Discarded(e.name) && IsMarker(e.name) then init + {MarkerBase(e.name)} else init
  }

  /** The filter is applied entry by entry: the kept entries of a concatenation are those of each part, in order. */
  lemma {:induction false} SettingsAppend(a: seq<Directive>, b: seq<Directive>)
    ensures Settings(a + b) == Settings(a) + Settings(b)
    decreases |b|
  {
    if b == [] {
      assert a + b == a;
    } else {
      var b' := b[..|b| - 1];
      assert (a + b)[..|a + b| - 1] == a + b';
      assert (a + b)[|a + b| - 1] == b[|b| - 1];
      SettingsAppend(a, b');
    }
  }

  /** One entry is kept exactly when it is neither discarded nor a marker. */
  lemma SettingsOne(d: Directive)
    ensures Settings([d]) == if Discarded(d.name) || IsMarker(d.name) then [] else [d]
  {
    assert [d][..0] == [];
  }

  /** An option is marked as given exactly when some kept marker entry names it. */
  lemma {:induction false} MarkersMeaning(cmdline: seq<Directive>, x: string)
    ensures x in Markers(cmdline) <==>
      exists i :: 0 <= i < |cmdline| && !Discarded(cmdline[i].name) && IsMarker(cmdline[i].name) &&
        MarkerBase(cmdline[i].name) == x
    decreases |cmdline|
  {
    if cmdline != [] {
      var init, e := cmdline[..|cmdline| - 1], cmdline[|cmdline| - 1];
      MarkersMeaning(init, x);
      if x in Markers(cmdline) {
        if x !in Markers(init) {
          var i := |cmdline| - 1;
          assert !Discarded(cmdline[i].name) && IsMarker(cmdline[i].name) && MarkerBase(cmdline[i].name) == x;
        } else {
          var i :| 0 <= i < |init| && !Discarded(init[i].name) && IsMarker(init[i].name) && MarkerBase(init[i].name) == x;
          assert cmdline[i] == init[i];
        }
      }
      if exists i :: 0 <= i < |cmdline| && !Discarded(cmdline[i].name) && IsMarker(cmdline[i].name) &&
                     MarkerBase(cmdline[i].name) == x {
        var i :| 0 <= i < |cmdline| && !Discarded(cmdline[i].name) && IsMarker(cmdline[i].name) &&
                 MarkerBase(cmdline[i].name) == x;
        if i < |init| {
          assert init[i] == cmdline[i];
        }
      }
    }
  }

  /** An entry that is neither discarded nor a marker is kept. */
  lemma {:induction false} KeptEntry(cmdline: seq<Directive>, i: nat)
    requires i < |cmdline| && !Discarded(cmdline[i].name) && !IsMarker(cmdline[i].name)
    ensures cmdline[i] in Settings(cmdline)
    decreases |cmdline|
  {
    var init := cmdline[..|cmdline| - 1];
    var kept := Settings(init);
    if i == |cmdline| - 1 {
      assert Settings(cmdline) == kept + [cmdline[i]];
    } else {
      assert init[i] == cmdline[i];
      KeptEntry(init, i);
      assert cmdline[i] in kept;
    }
  }

  /** The marker of a kept name is itself kept, and names it. */
  lemma MarkerOfKept(x: string)
    requires x != "" && !Discarded(x)
    ensures IsMarker(x + "_given") && MarkerBase(x + "_given") == x
    ensures !Discarded(x + "_given")
  {
    var m := x + "_given";
    assert m[..|m| - 6] == x && m[|m| - 6..] == "_given";
    if |x| >= 4 {
      assert m[..4] == x[..4];
    } else {
      assert m[|x|] == '_';
    }
  }

  /**
   * An option given on the command line, with its value entry and its
   * "x_given" marker anywhere in the parsed hash, reaches the merge as an
   * explicit value: the entry is kept and its name is marked as given.
   */
  lemma GivenPairKept(cmdline: seq<Directive>, i: nat, j: nat)
    requires i < |cmdline| && j < |cmdline|
    requires cmdline[i].name != "" && !Discarded(cmdline[i].name) && !IsMarker(cmdline[i].name)
    requires cmdline[j].name == cmdline[i].name + "_given"
    ensures cmdline[i] in Settings(cmdline)
    ensures cmdline[i].name in Markers(cmdline)
  {
    KeptEntry(cmdline, i);
    MarkerOfKept(cmdline[i].name);
    MarkersMeaning(cmdline, cmdline[i].name);
  }

  /** `@config.has_key?` for the entry's symbol. */
  predicate HasKey(store: Store, name: string)
  {
    Parse(name).Some? && Parse(name).value in store
  }

  /** One command-line value: applied when given, otherwise only when the store lacks its option. */
  function CliThen(r: Result<Store, Error>, d: Directive, given: set<string>, canOpen: string -> bool): Result<Store, Error>
  {
    match r
    case Failure(e) => Failure(e)
    case Success(s) => if d.name in given || !HasKey(s, d.name) then Then(r, d, canOpen) else r
  }

  /** The command-line values, in order. */
  function RunCli(store: Store, ps: seq<Directive>, given: set<string>, canOpen: string -> bool): Result<Store, Error>
    decreases |ps|
  {
    if ps == [] then Success(store)
    else CliThen(RunCli(store, ps[..|ps| - 1], given, canOpen), ps[|ps| - 1], given, canOpen)
  }

  /** More command-line values after an outcome that may already be a failure. */
  function CliAndThen(r: Result<Store, Error>, ps: seq<Directive>, given: set<string>, canOpen: string -> bool): Result<Store, Error>
  {
    match r
    case Failure(e) => Failure(e)
    case Success(s) => RunCli(s, ps, given, canOpen)
  }

  /** The whole merge: the files in order, then the command line. */
  function Resolve(cmdline: seq<Directive>, files: seq<seq<Directive>>, canOpen: string -> bool): Result<Store, Error>
  {
    CliAndThen(RunFiles(map[], files, canOpen), Settings(cmdline), Markers(cmdline), canOpen)
  }

  /** Command-line values split anywhere: the first part, then the rest. */
  lemma {:induction false} RunCliAppend(store: Store, a: seq<Directive>, b: seq<Directive>, given: set<string>,
                                        canOpen: string -> bool)
    ensures RunCli(store, a + b, given, canOpen) == CliAndThen(RunCli(store, a, given, canOpen), b, given, canOpen)
    decreases |b|
  {
    if b == [] {
      assert a + b == a;
      match RunCli(store, a, given, canOpen)
      case Failure(_) =>
      case Success(_) =>
    } else {
      var b' := b[..|b| - 1];
      assert (a + b)[..|a + b| - 1] == a + b';
      assert (a + b)[|a + b| - 1] == b[|b| - 1];
      RunCliAppend(store, a, b', given, canOpen);
      match RunCli(store, a, given, canOpen)
      case Failure(_) =>
      case Success(_) =>
    }
  }

  /** A command-line value that fails aborts the merge with its error. */
  lemma {:induction false} CliFailureStops(store: Store, ps: seq<Directive>, given: set<string>, p: nat,
                                           canOpen: string -> bool)
    requires p < |ps| && RunCli(store, ps[..p + 1], given, canOpen).Failure?
    ensures RunCli(store, ps, given, canOpen) == RunCli(store, ps[..p + 1], given, canOpen)
    decreases |ps|
  {
    if p + 1 < |ps| {
      var init := ps[..|ps| - 1];
      assert init[..p + 1] == ps[..p + 1];
      CliFailureStops(store, init, given, p, canOpen);
    } else {
      assert ps[..p + 1] == ps;
    }
  }

  /** Command-line values that do not target an option leave its entry as it was. */
  lemma {:induction false} RunCliKeepsUntargeted(store: Store, ps: seq<Directive>, given: set<string>,
                                                 canOpen: string -> bool, k: Key)
    requires forall i :: 0 <= i < |ps| ==> !Targets(ps[i], k)
    requires RunCli(store, ps, given, canOpen).Success?
    ensures var t := RunCli(store, ps, given, canOpen).value;
      (k in t <==> k in store) && (k in store ==> t[k] == store[k])
    decreases |ps|
  {
    if ps != [] {
      var init := ps[..|ps| - 1];
      assert forall i :: 0 <= i < |init| ==> init[i] == ps[i];
      RunCliKeepsUntargeted(store, init, given, canOpen, k);
      var d := ps[|ps| - 1];
      OnlyTargetChanges(RunCli(store, init, given, canOpen).value, d.name, d.arg, canOpen, k);
    }
  }

  /** Splits the command-line run at entry i: before it, the entry itself, after it. */
  lemma SplitAt(store: Store, ps: seq<Directive>, given: set<string>, canOpen: string -> bool, i: nat)
    requires i < |ps| && RunCli(store, ps, given, canOpen).Success?
    ensures RunCli(store, ps[..i], given, canOpen).Success?
    ensures var before := RunCli(store, ps[..i], given, canOpen).value;
      var at := CliThen(Success(before), ps[i], given, canOpen);
      at.Success? && RunCli(at.value, ps[i + 1..], given, canOpen) == RunCli(store, ps, given, canOpen)
  {
    var head, tail := ps[..i + 1], ps[i + 1..];
    assert ps == head + tail;
    RunCliAppend(store, head, tail, given, canOpen);
    var at := RunCli(store, head, given, canOpen);
    CliAndThenSucceeds(at, tail, given, canOpen);
    assert head[..i] == ps[..i] && head[i] == ps[i];
    CliRunLast(store, head, given, canOpen);
    CliThenSucceeds(RunCli(store, ps[..i], given, canOpen), ps[i], given, canOpen);
  }

  /** The command-line merge of a non-empty list is its last step after the rest. */
  lemma CliRunLast(store: Store, ps: seq<Directive>, given: set<string>, canOpen: string -> bool)
    requires ps != []
    ensures RunCli(store, ps, given, canOpen)
         == CliThen(RunCli(store, ps[..|ps| - 1], given, canOpen), ps[|ps| - 1], given, canOpen)
  {
  }

  /** More command-line values succeed only after a success, and then run from it. */
  lemma CliAndThenSucceeds(r: Result<Store, Error>, ps: seq<Directive>, given: set<string>, canOpen: string -> bool)
    requires CliAndThen(r, ps, given, canOpen).Success?
    ensures r.Success? && CliAndThen(r, ps, given, canOpen) == RunCli(r.value, ps, given, canOpen)
  {
  }

  /** A command-line step succeeds only after a success. */
  lemma CliThenSucceeds(r: Result<Store, Error>, d: Directive, given: set<string>, canOpen: string -> bool)
    requires CliThen(r, d, given, canOpen).Success?
    ensures r.Success? && r == Success(r.value)
  {
  }

  /** The option's entry after the call depends on nothing in the store but the option's own entry. */
  lemma SameEntrySameOutcome(s1: Store, s2: Store, name: string, arg: Value, canOpen: string -> bool, k: Key)
    requires Target(name, arg) == Some(k)
    requires (k in s1 <==> k in s2) && (k in s1 ==> s1[k] == s2[k])
    ensures Apply(s1, name, arg, canOpen).result == Apply(s2, name, arg, canOpen).result
    ensures Apply(s1, name, arg, canOpen).result.Success? ==>
      k in Apply(s1, name, arg, canOpen).store && k in Apply(s2, name, arg, canOpen).store &&
      Apply(s1, name, arg, canOpen).store[k] == Apply(s2, name, arg, canOpen).store[k]
  {
    var (n, a) := Negate(MethodName(name), arg).value;
    RewrittenReachesCommit(s1, name, arg, n, a, k, canOpen);
    RewrittenReachesCommit(s2, name, arg, n, a, k, canOpen);
    assert Prior(s1, k) == Prior(s2, k);
  }

  /**
   * A value given explicitly on the command line wins: when no later entry
   * targets its option, the option ends up with the value that entry stores,
   * whatever the configuration files set (the same value it would store in
   * an empty configuration).
   */
  lemma ExplicitValueWins(cmdline: seq<Directive>, files: seq<seq<Directive>>, canOpen: string -> bool, i: nat, k: Key)
    requires i < |Settings(cmdline)|
    requires Settings(cmdline)[i].name in Markers(cmdline) && Targets(Settings(cmdline)[i], k)
    requires !Describe(k).multi
    requires forall j :: i < j < |Settings(cmdline)| ==> !Targets(Settings(cmdline)[j], k)
    requires Resolve(cmdline, files, canOpen).Success?
    ensures var e := Settings(cmdline)[i];
      Apply(map[], e.name, e.arg, canOpen).result.Success? && k in Apply(map[], e.name, e.arg, canOpen).store &&
      k in Resolve(cmdline, files, canOpen).value &&
      Resolve(cmdline, files, canOpen).value[k] == Apply(map[], e.name, e.arg, canOpen).store[k]
  {
    var s0 := RunFiles(map[], files, canOpen).value;
    CliExplicitWins(s0, Settings(cmdline), Markers(cmdline), canOpen, i, k);
  }

  /** The command-line part of the lemma above, for any store the files leave. */
  lemma CliExplicitWins(s0: Store, ps: seq<Directive>, given: set<string>, canOpen: string -> bool, i: nat, k: Key)
    requires i < |ps| && ps[i].name in given && Targets(ps[i], k)
    requires !Describe(k).multi
    requires forall j :: i < j < |ps| ==> !Targets(ps[j], k)
    requires RunCli(s0, ps, given, canOpen).Success?
    ensures Apply(map[], ps[i].name, ps[i].arg, canOpen).result.Success? && k in Apply(map[], ps[i].name, ps[i].arg, canOpen).store
    ensures k in RunCli(s0, ps, given, canOpen).value
    ensures RunCli(s0, ps, given, canOpen).value[k] == Apply(map[], ps[i].name, ps[i].arg, canOpen).store[k]
  {
    SplitAt(s0, ps, given, canOpen, i);
    var before := RunCli(s0, ps[..i], given, canOpen).value;
    var e := ps[i];
    assert CliThen(Success(before), e, given, canOpen) == Then(Success(before), e, canOpen);
    ThenSucceeds(Success(before), e, canOpen);
    var after := Apply(before, e.name, e.arg, canOpen);
    SingleOverwrites(before, map[], e.name, e.arg, canOpen, k);
    ResultIsStoredValue(before, e.name, e.arg, canOpen);
    ResultIsStoredValue(map[], e.name, e.arg, canOpen);
    assert forall j :: i + 1 <= j < |ps| ==> ps[i + 1..][j - i - 1] == ps[j];
    RunCliKeepsUntargeted(after.store, ps[i + 1..], given, canOpen, k);
  }

  /** A value not given explicitly is skipped for an option the store already holds. */
  lemma {:induction false} DefaultsSkipPresent(store: Store, ps: seq<Directive>, given: set<string>,
                                               canOpen: string -> bool, k: Key)
    requires k in store
    requires forall j :: 0 <= j < |ps| && Targets(ps[j], k) ==> ps[j].name !in given && ps[j].name == Name(k)
    requires RunCli(store, ps, given, canOpen).Success?
    ensures k in RunCli(store, ps, given, canOpen).value
    ensures RunCli(store, ps, given, canOpen).value[k] == store[k]
    decreases |ps|
  {
    if ps != [] {
      var init, d := ps[..|ps| - 1], ps[|ps| - 1];
      var r := RunCli(store, init, given, canOpen);
      assert RunCli(store, ps, given, canOpen) == CliThen(r, d, given, canOpen);
      CliThenSucceeds(r, d, given, canOpen);
      assert forall j :: 0 <= j < |init| ==> init[j] == ps[j];
      DefaultsSkipPresent(store, init, given, canOpen, k);
      if Targets(d, k) {
        ParseName(k);
        assert HasKey(r.value, d.name);
        assert CliThen(r, d, given, canOpen) == r;
      } else if d.name in given || !HasKey(r.value, d.name) {
        ThenSucceeds(r, d, canOpen);
        OnlyTargetChanges(r.value, d.name, d.arg, canOpen, k);
      }
    }
  }

  /**
   * A configuration file's value survives the command line's defaults:
   * when the files set an option (to nil by "none" included) and the
   * command line only carries its default, the file's value is kept.
   */
  lemma FileValueBeatsDefault(cmdline: seq<Directive>, files: seq<seq<Directive>>, canOpen: string -> bool, k: Key)
    requires RunFiles(map[], files, canOpen).Success? && k in RunFiles(map[], files, canOpen).value
    requires forall j :: 0 <= j < |Settings(cmdline)| && Targets(Settings(cmdline)[j], k) ==>
      Settings(cmdline)[j].name !in Markers(cmdline) && Settings(cmdline)[j].name == Name(k)
    requires Resolve(cmdline, files, canOpen).Success?
    ensures k in Resolve(cmdline, files, canOpen).value
    ensures Resolve(cmdline, files, canOpen).value[k] == RunFiles(map[], files, canOpen).value[k]
  {
    DefaultsSkipPresent(RunFiles(map[], files, canOpen).value, Settings(cmdline), Markers(cmdline), canOpen, k);
  }

  /** A command-line value for an option the store lacks is applied, as it would be to an empty store. */
  lemma StepFillsGap(before: Store, e: Directive, given: set<string>, canOpen: string -> bool, k: Key)
    requires k !in before && Targets(e, k)
    requires e.name in given || e.name == Name(k)
    requires CliThen(Success(before), e, given, canOpen).Success?
    ensures Apply(map[], e.name, e.arg, canOpen).result.Success? && k in Apply(map[], e.name, e.arg, canOpen).store
    ensures k in CliThen(Success(before), e, given, canOpen).value
    ensures CliThen(Success(before), e, given, canOpen).value[k] == Apply(map[], e.name, e.arg, canOpen).store[k]
  {
    SameEntrySameOutcome(before, map[], e.name, e.arg, canOpen, k);
  }

  /**
   * An option no configuration file set takes its value from the command
   * line, given or default: the one entry that targets it stores what it
   * would store in an empty configuration.
   */
  lemma UnsetOptionTakesCommandLine(cmdline: seq<Directive>, files: seq<seq<Directive>>, canOpen: string -> bool,
                                    i: nat, k: Key)
    requires RunFiles(map[], files, canOpen).Success? && k !in RunFiles(map[], files, canOpen).value
    requires i < |Settings(cmdline)| && Targets(Settings(cmdline)[i], k)
    requires Settings(cmdline)[i].name in Markers(cmdline) || Settings(cmdline)[i].name == Name(k)
    requires forall j :: 0 <= j < |Settings(cmdline)| && j != i ==> !Targets(Settings(cmdline)[j], k)
    requires Resolve(cmdline, files, canOpen).Success?
    ensures var e := Settings(cmdline)[i];
      Apply(map[], e.name, e.arg, canOpen).result.Success? && k in Apply(map[], e.name, e.arg, canOpen).store &&
      k in Resolve(cmdline, files, canOpen).value &&
      Resolve(cmdline, files, canOpen).value[k] == Apply(map[], e.name, e.arg, canOpen).store[k]
  {
    var s0 := RunFiles(map[], files, canOpen).value;
    CliUnsetTakes(s0, Settings(cmdline), Markers(cmdline), canOpen, i, k);
  }

  /** The command-line part of the lemma above, for any store that lacks the option. */
  lemma CliUnsetTakes(s0: Store, ps: seq<Directive>, given: set<string>, canOpen: string -> bool, i: nat, k: Key)
    requires k !in s0
    requires i < |ps| && Targets(ps[i], k)
    requires ps[i].name in given || ps[i].name == Name(k)
    requires forall j :: 0 <= j < |ps| && j != i ==> !Targets(ps[j], k)
    requires RunCli(s0, ps, given, canOpen).Success?
    ensures Apply(map[], ps[i].name, ps[i].arg, canOpen).result.Success? && k in Apply(map[], ps[i].name, ps[i].arg, canOpen).store
    ensures k in RunCli(s0, ps, given, canOpen).value
    ensures RunCli(s0, ps, given, canOpen).value[k] == Apply(map[], ps[i].name, ps[i].arg, canOpen).store[k]
  {
    SplitAt(s0, ps, given, canOpen, i);
    assert forall j :: 0 <= j < |ps[..i]| ==> ps[..i][j] == ps[j];
    RunCliKeepsUntargeted(s0, ps[..i], given, canOpen, k);
    var before := RunCli(s0, ps[..i], given, canOpen).value;
    StepFillsGap(before, ps[i], given, canOpen, k);
    var after := CliThen(Success(before), ps[i], given, canOpen).value;
    assert forall j :: i + 1 <= j < |ps| ==> ps[i + 1..][j - i - 1] == ps[j];
    RunCliKeepsUntargeted(after, ps[i + 1..], given, canOpen, k);
  }

  // ---------------------------------------------------------------------------
  // Repeatable options

  /** Regrouping a concatenation, stated apart so the solver meets it on small terms. */
  lemma AppendAssoc(a: seq<Value>, b: seq<Value>, c: seq<Value>)
    ensures (a + b) + c == a + (b + c)
  {
  }

  /** What one directive adds to repeatable option k. */
  function Contribution(d: Directive, k: Key): seq<Value>
  {
    if IsAccessor(d.name) then []
    else match Negate(MethodName(d.name), d.arg)
    case None => []
    case Some((n, a)) => if Parse(n) == Some(k) then Flatten([a]) else []
  }

  /** A directive that does not target the option adds nothing to it. */
  lemma NoContribution(d: Directive, k: Key)
    requires !Targets(d, k)
    ensures Contribution(d, k) == []
  {
  }

  /**
   * "NOconfig" is no accessor's name, so `NOconfig true` goes through the
   * negation rewrite and adds false to config; `config x` adds nothing,
   * since the accessor refuses it.
   */
  lemma NoConfigCollectsFalse(arg: Value)
    ensures Contribution(Directive("NOconfig", Bool(true)), Config) == [Bool(false)]
    ensures Contribution(Directive("config", arg), Config) == []
  {
    var m := MethodName("NOconfig");
    assert m == "NOconfig";
    assert Negate(m, Bool(true)) == Some(("config", Bool(false)));
    ParseName(Config);
    assert Flatten([Bool(false)]) == [Bool(false)];
  }

  /** What a list of directives adds to repeatable option k, in their order. */
  function Contributions(ds: seq<Directive>, k: Key): (r: seq<Value>)
    ensures Flat(r)
    decreases |ds|
  {
    if ds == [] then []
    else
      var init := Contributions(ds[..|ds| - 1], k);
      var last := Contribution(ds[|ds| - 1], k);
      assert Flat(init) && Flat(last);
      init + last
  }

  /** One directive appends its contribution to a repeatable option and leaves the store well-formed. */
  lemma StepCollects(store: Store, d: Directive, canOpen: string -> bool, k: Key)
    requires WellFormed(store) && Describe(k).multi
    requires Apply(store, d.name, d.arg, canOpen).result.Success?
    ensures Prior(Apply(store, d.name, d.arg, canOpen).store, k) == Prior(store, k) + Contribution(d, k)
  {
    if Targets(d, k) {
      var (n, a) := Negate(MethodName(d.name), d.arg).value;
      MultiOptionsArePlain(k);
      RewrittenReachesCommit(store, d.name, d.arg, n, a, k, canOpen);
      FlattenAppend(Prior(store, k), [a]);
      FlattenFlat(Prior(store, k));
    } else {
      OnlyTargetChanges(store, d.name, d.arg, canOpen, k);
    }
  }

  /** A repeatable option collects every directive's value in order, with no nested arrays. */
  lemma {:induction false} RunCollects(store: Store, ds: seq<Directive>, canOpen: string -> bool, k: Key)
    requires WellFormed(store) && Describe(k).multi
    requires Run(store, ds, canOpen).Success?
    ensures Prior(Run(store, ds, canOpen).value, k) == Prior(store, k) + Contributions(ds, k)
    decreases |ds|
  {
    if ds != [] {
      var init := ds[..|ds| - 1];
      RunCollects(store, init, canOpen, k);
      RunKeepsWellFormed(store, init, canOpen);
      var d := ds[|ds| - 1];
      var r := Run(store, init, canOpen);
      assert Run(store, ds, canOpen) == Then(r, d, canOpen);
      StepCollects(r.value, d, canOpen, k);
      AppendAssoc(Prior(store, k), Contributions(init, k), Contribution(d, k));
    }
  }

  /** The command line keeps the store well-formed. */
  lemma {:induction false} RunCliKeepsWellFormed(store: Store, ps: seq<Directive>, given: set<string>,
                                                 canOpen: string -> bool)
    requires WellFormed(store) && RunCli(store, ps, given, canOpen).Success?
    ensures WellFormed(RunCli(store, ps, given, canOpen).value)
    decreases |ps|
  {
    if ps != [] {
      var init := ps[..|ps| - 1];
      RunCliKeepsWellFormed(store, init, given, canOpen);
      var d := ps[|ps| - 1];
      ApplyKeepsWellFormed(RunCli(store, init, given, canOpen).value, d.name, d.arg, canOpen);
    }
  }

  /** One command-line value, skipped or applied, adds its contribution when it is given. */
  lemma CliStepCollects(s: Store, d: Directive, given: set<string>, canOpen: string -> bool, k: Key)
    requires WellFormed(s) && Describe(k).multi
    requires Targets(d, k) ==> d.name in given
    requires CliThen(Success(s), d, given, canOpen).Success?
    ensures Prior(CliThen(Success(s), d, given, canOpen).value, k) == Prior(s, k) + Contribution(d, k)
  {
    if d.name in given || !HasKey(s, d.name) {
      assert CliThen(Success(s), d, given, canOpen) == Then(Success(s), d, canOpen);
      ThenSucceeds(Success(s), d, canOpen);
      StepCollects(s, d, canOpen, k);
    } else {
      assert CliThen(Success(s), d, given, canOpen) == Success(s);
      assert !Targets(d, k);
      NoContribution(d, k);
    }
  }

  /** On the command line, a repeatable option whose entries are all given collects them in order. */
  lemma {:induction false} RunCliCollects(store: Store, ps: seq<Directive>, given: set<string>,
                                          canOpen: string -> bool, k: Key)
    requires WellFormed(store) && Describe(k).multi
    requires forall j :: 0 <= j < |ps| && Targets(ps[j], k) ==> ps[j].name in given
    requires RunCli(store, ps, given, canOpen).Success?
    ensures Prior(RunCli(store, ps, given, canOpen).value, k) == Prior(store, k) + Contributions(ps, k)
    decreases |ps|
  {
    if ps != [] {
      var init := ps[..|ps| - 1];
      assert forall j :: 0 <= j < |init| ==> init[j] == ps[j];
      RunCliCollects(store, init, given, canOpen, k);
      RunCliKeepsWellFormed(store, init, given, canOpen);
      var d := ps[|ps| - 1];
      assert Targets(d, k) ==> d.name in given;
      var r := RunCli(store, init, given, canOpen);
      assert RunCli(store, ps, given, canOpen) == CliThen(r, d, given, canOpen);
      assert r.Success?;
      CliStepCollects(r.value, d, given, canOpen, k);
      var t := CliThen(r, d, given, canOpen).value;
      assert Prior(t, k) == Prior(r.value, k) + Contribution(d, k);
      assert Contributions(ps, k) == Contributions(init, k) + Contribution(d, k);
      assert Prior(RunCli(store, ps, given, canOpen).value, k) == Prior(t, k);
      assert Prior(r.value, k) == Prior(store, k) + Contributions(init, k);
      AppendAssoc(Prior(store, k), Contributions(init, k), Contribution(d, k));
    }
  }

  /**
   * A repeatable option set in configuration files and given on the command
   * line ends up holding every value: the files' in file order, then the
   * command line's, with no nested arrays.
   */
  lemma RepeatableCollectsAll(cmdline: seq<Directive>, files: seq<seq<Directive>>, canOpen: string -> bool, k: Key)
    requires Describe(k).multi
    requires forall j :: 0 <= j < |Settings(cmdline)| && Targets(Settings(cmdline)[j], k) ==>
      Settings(cmdline)[j].name in Markers(cmdline)
    requires Resolve(cmdline, files, canOpen).Success?
    ensures Prior(Resolve(cmdline, files, canOpen).value, k)
         == Contributions(Concat(files), k) + Contributions(Settings(cmdline), k)
  {
    FilesInOrder(map[], files, canOpen);
    assert WellFormed(map[]) && Prior(map[], k) == [];
    RunCollects(map[], Concat(files), canOpen, k);
    RunKeepsWellFormed(map[], Concat(files), canOpen);
    var s0 := RunFiles(map[], files, canOpen).value;
    assert Prior(s0, k) == Contributions(Concat(files), k);
    RunCliCollects(s0, Settings(cmdline), Markers(cmdline), canOpen, k);
  }

  /** A merge that succeeds met no unknown name in any configuration file. */
  lemma ResolveMeansKnownFileNames(cmdline: seq<Directive>, files: seq<seq<Directive>>, canOpen: string -> bool)
    requires Resolve(cmdline, files, canOpen).Success?
    ensures forall i :: 0 <= i < |Concat(files)| ==> !Unknown(Concat(files)[i])
  {
    FilesInOrder(map[], files, canOpen);
    SuccessMeansAllKnown(map[], Concat(files), canOpen);
  }
}
