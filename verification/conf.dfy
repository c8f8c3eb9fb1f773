/**
 * MARC2Solr::Conf as an object: the option store it updates in place, the
 * setter that configuration files and the command line call, the getter,
 * and the constructor's merge of configuration files and command line.
 * Each method is proved against the functions of the Setter and Merge
 * modules, so the properties proved there hold of the object.
 */
module Configuration {
  import opened Wrappers
  import opened Values
  import opened Schema
  import opened Setter
  import opened Merge

  class Conf {
    /** The resolved options (`@config`). */
    var config: Store
    /** The command-line words left after the options (`@rest`). */
    var rest: seq<string>

    /** The store holds every repeatable option as nil or a flat array. */
    ghost predicate Valid()
      reads this
    {
      WellFormed(config)
    }

    /** An empty configuration. */
    constructor ()
      ensures config == map[] && rest == [] && Valid()
    {
      config := map[];
      rest := [];
    }

    /**
     * The getter `conf[:x]`, and `conf.x` with no argument for any name but
     * an accessor's: nil unless the symbol names an option that is stored.
     */
    function Get(name: string): (v: Value)
      reads this
      ensures v != Nil ==> Parse(name).Some? && Parse(name).value in config && config[Parse(name).value] == v
      ensures Parse(name).None? ==> v == Nil
      ensures Parse(name).Some? && Parse(name).value in config ==> v == config[Parse(name).value]
      ensures Parse(name).Some? && Parse(name).value !in config ==> v == Nil
    {
      Fetch(config, name)
    }

    /** The setter: `conf.x(value)` or `conf.x = value`. */
    method Set(name: string, arg: Value, canOpen: string -> bool) returns (r: Result<Value, Error>)
      requires Valid()
      modifies this
      ensures Valid()
      ensures Outcome(r, config) == Apply(old(config), name, arg, canOpen)
      ensures rest == old(rest)
    {
      ApplyKeepsWellFormed(config, name, arg, canOpen);
      var n := MethodName(name);
      // the accessors' own methods answer these names; the reader takes no argument
      if IsAccessor(name) {
        return Failure(AccessorCall(name));
      }
      var a := arg;
      // a negated option counts only with `true`, and then sets the plain option to false
      if StartsWithNo(n) {
        if a == Bool(true) {
          n, a := n[2..], Bool(false);
        } else {
          return Success(Nil);
        }
      }
      var found := Parse(n);
      if found.None? {
        return Failure(UnknownOption(n));
      }
      var k := found.value;
      var d := Describe(k);
      if d.takesNone {
        var tokens := DowncasedTokens(a);
        if tokens.None? {
          return Failure(NoDowncase(k, a));
        }
        if "none" in tokens.value {
          config := config[k := Nil];
          return Success(Nil);
        }
      }
      if d.valid.Some? && !(a.Str? && a.s in d.valid.value) {
        return Failure(InvalidValue(k, a));
      }
      if d.isOutfile && !IsStream(a) {
        if !a.Str? {
          return Failure(NoDowncase(k, a));
        }
        var lowered := Lower(a.s);
        if lowered == "stdin" {
          a := Std(Stdin);
        } else if lowered == "stdout" {
          a := Std(Stdout);
        } else if lowered == "stderr" {
          a := Std(Stderr);
        } else if canOpen(a.s) {
          a := Handle(a.s);
        } else {
          return Failure(CannotOpen(k, a.s));
        }
      }
      if d.multi {
        var prior := Prior(config, k);
        config := config[k := List(Flatten(prior + [a]))];
      } else {
        config := config[k := a];
      }
      r := Success(config[k]);
    }

    /** One configuration file's directives, in order; the first error stops it. */
    method ReadFile(ds: seq<Directive>, canOpen: string -> bool) returns (err: Option<Error>)
      requires Valid()
      modifies this
      ensures Valid() && rest == old(rest)
      ensures Run(old(config), ds, canOpen).Success? ==> err == None && config == Run(old(config), ds, canOpen).value
      ensures Run(old(config), ds, canOpen).Failure? ==> err == Some(Run(old(config), ds, canOpen).error)
    {
      var j := 0;
      while j < |ds|
        invariant 0 <= j <= |ds| && Valid() && rest == old(rest)
        invariant Run(old(config), ds[..j], canOpen) == Success(config)
      {
        var d := ds[j];
        assert ds[..j + 1][..j] == ds[..j];
        var r := Set(d.name, d.arg, canOpen);
        if r.Failure? {
          RunFailureSticks(old(config), ds, j + 1, canOpen);
          return Some(r.error);
        }
        j := j + 1;
      }
      assert ds[..j] == ds;
      return None;
    }

    /** The configuration files, in the order given; the first error stops them. */
    method ReadFiles(files: seq<seq<Directive>>, canOpen: string -> bool) returns (err: Option<Error>)
      requires Valid()
      modifies this
      ensures Valid() && rest == old(rest)
      ensures RunFiles(old(config), files, canOpen).Success? ==>
        err == None && config == RunFiles(old(config), files, canOpen).value
      ensures RunFiles(old(config), files, canOpen).Failure? ==>
        err == Some(RunFiles(old(config), files, canOpen).error)
    {
      var i := 0;
      while i < |files|
        invariant 0 <= i <= |files| && Valid() && rest == old(rest)
        invariant RunFiles(old(config), files[..i], canOpen) == Success(config)
      {
        assert files[..i + 1][..i] == files[..i];
        err := ReadFile(files[i], canOpen);
        if err.Some? {
          FilesFailureSticks(old(config), files, i + 1, canOpen);
          return;
        }
        i := i + 1;
      }
      assert files[..i] == files;
      return None;
    }

    /** Sets aside the config-file list, the help entries and the "_given" markers of the parsed command line. */
    static method SplitCommandLine(cmdline: seq<Directive>) returns (settings: seq<Directive>, given: set<string>)
      ensures settings == Settings(cmdline) && given == Markers(cmdline)
    {
      settings, given := [], {};
      var m := 0;
      while m < |cmdline|
        invariant 0 <= m <= |cmdline|
        invariant settings == Settings(cmdline[..m]) && given == Markers(cmdline[..m])
      {
        var e := cmdline[m];
        assert cmdline[..m + 1][..m] == cmdline[..m];
        if Discarded(e.name) {
        } else if IsMarker(e.name) {
          given := given + {MarkerBase(e.name)};
        } else {
          settings := settings + [e];
        }
        m := m + 1;
      }
      assert cmdline[..m] == cmdline;
    }

    /** The command-line values: a given one always, any other only for an option not yet set. */
    method ApplyCommandLine(settings: seq<Directive>, given: set<string>, canOpen: string -> bool)
      returns (err: Option<Error>)
      requires Valid()
      modifies this
      ensures Valid() && rest == old(rest)
      ensures RunCli(old(config), settings, given, canOpen).Success? ==>
        err == None && config == RunCli(old(config), settings, given, canOpen).value
      ensures RunCli(old(config), settings, given, canOpen).Failure? ==>
        err == Some(RunCli(old(config), settings, given, canOpen).error)
    {
      var p := 0;
      while p < |settings|
        invariant 0 <= p <= |settings| && Valid() && rest == old(rest)
        invariant RunCli(old(config), settings[..p], given, canOpen) == Success(config)
      {
        var e := settings[p];
        assert settings[..p + 1][..p] == settings[..p];
        if e.name in given || !HasKey(config, e.name) {
          var r := Set(e.name, e.arg, canOpen);
          if r.Failure? {
            CliFailureStops(old(config), settings, given, p, canOpen);
            return Some(r.error);
          }
        }
        p := p + 1;
      }
      assert settings[..p] == settings;
      return None;
    }

    /**
     * The constructor's work after option parsing: every configuration
     * file's directives in order, then the parsed command line, then the
     * remaining words. The first error stops it.
     */
    method Load(cmdline: seq<Directive>, files: seq<seq<Directive>>, words: seq<string>, canOpen: string -> bool)
      returns (err: Option<Error>)
      modifies this
      ensures Valid()
      ensures Resolve(cmdline, files, canOpen).Success? ==>
        err == None && config == Resolve(cmdline, files, canOpen).value && rest == words
      ensures Resolve(cmdline, files, canOpen).Failure? ==>
        err == Some(Resolve(cmdline, files, canOpen).error)
    {
      config := map[];
      err := ReadFiles(files, canOpen);
      if err.Some? {
        return;
      }
      var settings, given := SplitCommandLine(cmdline);
      err := ApplyCommandLine(settings, given, canOpen);
      if err.Some? {
        return;
      }
      rest := words;
    }
  }
}
