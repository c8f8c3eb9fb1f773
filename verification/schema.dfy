/**
 * The option schema of MARC2Solr::Conf: the static OPTIONSCONFIG table, the
 * VALIDOPTIONS index over it, and the `:only` filter that decides which
 * options a sub-command offers.
 */
module Schema {
  import opened Wrappers
  import opened Values

  /** The sub-commands of SUB_COMMANDS. */
  datatype Command = Index | Delete | Commit | Help

  /** One constructor per entry of OPTIONSCONFIG, in table order. */
  datatype Key =
    | Config | Benchmark | NoBenchmark | Dryrun | NoDryrun
    | Printmarc | NoPrintmarc | Printdoc | NoPrintdoc | Debugfile
    | Clearsolr | Skipcommit | Threads | Sussthreads | Susssize
    | Machine | Port | Solrpath | Javabin | NoJavabin
    | Logfile | Loglevel | Logbatchsize | Indexfile | Tmapdir
    | Customdir | Marctype | Encoding | Gzipped

  /** The `:type` an entry declares (an entry without one leaves the type to the option parser). */
  datatype ArgType = IoArg | IntArg | StringArg

  /** One OPTIONSCONFIG entry, its `:desc` text aside. */
  datatype Descriptor = Descriptor(
    argType: Option<ArgType>,
    default: Option<Value>,
    short: Option<char>,
    only: Option<set<Command>>,
    valid: Option<seq<string>>,
    multi: bool,
    takesNone: bool,
    isOutfile: bool)

  /** The option's symbol, as a string. */
  function Name(k: Key): string
  {
    match k
    case Config => "config"
    case Benchmark => "benchmark"
    case NoBenchmark => "NObenchmark"
    case Dryrun => "dryrun"
    case NoDryrun => "NOdryrun"
    case Printmarc => "printmarc"
    case NoPrintmarc => "NOprintmarc"
    case Printdoc => "printdoc"
    case NoPrintdoc => "NOprintdoc"
    case Debugfile => "debugfile"
    case Clearsolr => "clearsolr"
    case Skipcommit => "skipcommit"
    case Threads => "threads"
    case Sussthreads => "sussthreads"
    case Susssize => "susssize"
    case Machine => "machine"
    case Port => "port"
    case Solrpath => "solrpath"
    case Javabin => "javabin"
    case NoJavabin => "NOjavabin"
    case Logfile => "logfile"
    case Loglevel => "loglevel"
    case Logbatchsize => "logbatchsize"
    case Indexfile => "indexfile"
    case Tmapdir => "tmapdir"
    case Customdir => "customdir"
    case Marctype => "marctype"
    case Encoding => "encoding"
    case Gzipped => "gzipped"
  }

  /**
   * VALIDOPTIONS membership: the option a symbol names, if any. The cases
   * are grouped by the symbol's length to keep the comparisons few.
   */
  function Parse(s: string): (r: Option<Key>)
    ensures r.Some? ==> Name(r.value) == s
  {
    match |s|
    case 4 =>
      (match s[0]
      case 'p' =>
        if s == Name(Port) then Some(Port)
        else None
      case _ => None)
    case 6 =>
      (match s[0]
      case 'c' =>
        if s == Name(Config) then Some(Config)
        else None
      case 'd' =>
        if s == Name(Dryrun) then Some(Dryrun)
        else None
      case _ => None)
    case 7 =>
      (match s[0]
      case 'g' =>
        if s == Name(Gzipped) then Some(Gzipped)
        else None
      case 'j' =>
        if s == Name(Javabin) then Some(Javabin)
        else None
      case 'l' =>
        if s == Name(Logfile) then Some(Logfile)
        else None
      case 'm' =>
        if s == Name(Machine) then Some(Machine)
        else None
      case 't' =>
        if s == Name(Threads) then Some(Threads)
        else if s == Name(Tmapdir) then Some(Tmapdir)
        else None
      case _ => None)
    case 8 =>
      (match s[0]
      case 'N' =>
        if s == Name(NoDryrun) then Some(NoDryrun)
        else None
      case 'e' =>
        if s == Name(Encoding) then Some(Encoding)
        else None
      case 'l' =>
        if s == Name(Loglevel) then Some(Loglevel)
        else None
      case 'm' =>
        if s == Name(Marctype) then Some(Marctype)
        else None
      case 'p' =>
        if s == Name(Printdoc) then Some(Printdoc)
        else None
      case 's' =>
        if s == Name(Susssize) then Some(Susssize)
        else if s == Name(Solrpath) then Some(Solrpath)
        else None
      case _ => None)
    case 9 =>
      (match s[0]
      case 'N' =>
        if s == Name(NoJavabin) then Some(NoJavabin)
        else None
      case 'b' =>
        if s == Name(Benchmark) then Some(Benchmark)
        else None
      case 'c' =>
        if s == Name(Clearsolr) then Some(Clearsolr)
        else if s == Name(Customdir) then Some(Customdir)
        else None
      case 'd' =>
        if s == Name(Debugfile) then Some(Debugfile)
        else None
      case 'i' =>
        if s == Name(Indexfile) then Some(Indexfile)
        else None
      case 'p' =>
        if s == Name(Printmarc) then Some(Printmarc)
        else None
      case _ => None)
    case 10 =>
      (match s[0]
      case 'N' =>
        if s == Name(NoPrintdoc) then Some(NoPrintdoc)
        else None
      case 's' =>
        if s == Name(Skipcommit) then Some(Skipcommit)
        else None
      case _ => None)
    case 11 =>
      (match s[0]
      case 'N' =>
        if s == Name(NoBenchmark) then Some(NoBenchmark)
        else if s == Name(NoPrintmarc) then Some(NoPrintmarc)
        else None
      case 's' =>
        if s == Name(Sussthreads) then Some(Sussthreads)
        else None
      case _ => None)
    case 12 =>
      (match s[0]
      case 'l' =>
        if s == Name(Logbatchsize) then Some(Logbatchsize)
        else None
      case _ => None)
    case _ => None
  }

  /** Every option's symbol is recognised as that option, so no two entries share a symbol. */
  lemma ParseName(k: Key)
    ensures Parse(Name(k)) == Some(k)
  {
    if k in {Config, Benchmark, NoBenchmark, Dryrun, NoDryrun, Printmarc, NoPrintmarc, Printdoc, NoPrintdoc, Debugfile} {
      ParseNameFirst(k);
    } else if k in {Clearsolr, Skipcommit, Threads, Sussthreads, Susssize, Machine, Port, Solrpath, Javabin, NoJavabin} {
      ParseNameSecond(k);
    } else {
      ParseNameThird(k);
    }
  }

  /** ParseName for the first ten entries of the table. */
  lemma ParseNameFirst(k: Key)
    requires k in {Config, Benchmark, NoBenchmark, Dryrun, NoDryrun, Printmarc, NoPrintmarc, Printdoc, NoPrintdoc, Debugfile}
    ensures Parse(Name(k)) == Some(k)
  {
    match k
    case Config =>
    case Benchmark =>
    case NoBenchmark =>
    case Dryrun =>
    case NoDryrun =>
    case Printmarc =>
    case NoPrintmarc =>
    case Printdoc =>
    case NoPrintdoc =>
    case Debugfile =>
    case _ => assert false;
  }

  /** ParseName for the next ten entries of the table. */
  lemma ParseNameSecond(k: Key)
    requires k in {Clearsolr, Skipcommit, Threads, Sussthreads, Susssize, Machine, Port, Solrpath, Javabin, NoJavabin}
    ensures Parse(Name(k)) == Some(k)
  {
    match k
    case Clearsolr =>
    case Skipcommit =>
    case Threads =>
    case Sussthreads =>
    case Susssize =>
    case Machine =>
    case Port =>
    case Solrpath =>
    case Javabin =>
    case NoJavabin =>
    case _ => assert false;
  }

  /** ParseName for the last nine entries of the table. */
  lemma ParseNameThird(k: Key)
    requires k in {Logfile, Loglevel, Logbatchsize, Indexfile, Tmapdir, Customdir, Marctype, Encoding, Gzipped}
    ensures Parse(Name(k)) == Some(k)
  {
    match k
    case Logfile =>
    case Loglevel =>
    case Logbatchsize =>
    case Indexfile =>
    case Tmapdir =>
    case Customdir =>
    case Marctype =>
    case Encoding =>
    case Gzipped =>
    case _ => assert false;
  }

  /** Symbols and options correspond one to one. */
  lemma NameInjective(k1: Key, k2: Key)
    ensures Name(k1) == Name(k2) <==> k1 == k2
  {
    ParseName(k1);
    ParseName(k2);
  }

  /** An entry with nothing but defaults: a flag offered for every command. */
  const Bare := Descriptor(None, None, None, None, None, false, false, false)

  /** The OPTIONSCONFIG entry of each option. */
  function Describe(k: Key): Descriptor
  {
    match k
    case Config => Bare.(argType := Some(IoArg), multi := true)
    case Benchmark => Bare.(only := Some({Index}), short := Some('B'))
    case NoBenchmark => Bare.(only := Some({Index}))
    case Dryrun => Bare
    case NoDryrun => Bare
    case Printmarc => Bare.(only := Some({Index}), short := Some('r'))
    case NoPrintmarc => Bare.(only := Some({Index}))
    case Printdoc => Bare.(only := Some({Index}), short := Some('d'))
    case NoPrintdoc => Bare.(only := Some({Index}))
    case Debugfile =>
      Bare.(default := Some(Str("STDOUT")), isOutfile := true, takesNone := true,
            argType := Some(StringArg), only := Some({Delete, Index}))
    case Clearsolr => Bare.(only := Some({Index}))
    case Skipcommit => Bare.(short := Some('C'), only := Some({Delete, Index}))
    case Threads => Bare.(argType := Some(IntArg), default := Some(Int(1)), only := Some({Index}))
    case Sussthreads => Bare.(argType := Some(IntArg), default := Some(Int(1)))
    case Susssize => Bare.(short := Some('S'), default := Some(Int(128)))
    case Machine => Bare.(short := Some('m'), argType := Some(StringArg))
    case Port => Bare.(short := Some('p'), argType := Some(IntArg))
    case Solrpath => Bare.(short := Some('P'))
    case Javabin => Bare
    case NoJavabin => Bare
    case Logfile => Bare.(default := Some(Str("DEFAULT")), takesNone := true, argType := Some(StringArg))
    case Loglevel =>
      Bare.(short := Some('L'), takesNone := true,
            valid := Some(["OFF", "DEBUG", "INFO", "WARN", "ERROR"]), default := Some(Str("INFO")))
    case Logbatchsize => Bare.(default := Some(Int(25000)), only := Some({Delete, Index}), short := Some('b'))
    case Indexfile => Bare.(argType := Some(StringArg), only := Some({Index}))
    case Tmapdir => Bare.(argType := Some(StringArg), only := Some({Index}))
    case Customdir => Bare.(only := Some({Index}), multi := true, argType := Some(StringArg))
    case Marctype =>
      Bare.(only := Some({Index}), short := Some('t'),
            valid := Some(["bestguess", "strictmarc", "permissivemarc", "marcxml", "alephsequential"]),
            default := Some(Str("bestguess")))
    case Encoding =>
      Bare.(valid := Some(["bestguess", "utf8", "marc8", "iso"]), only := Some({Index}),
            default := Some(Str("bestguess")))
    case Gzipped => Bare.(default := Some(Bool(false)), only := Some({Index, Delete}))
  }

  /** The options in OPTIONSCONFIG order. */
  const Options: seq<Key> := [
    Config, Benchmark, NoBenchmark, Dryrun, NoDryrun,
    Printmarc, NoPrintmarc, Printdoc, NoPrintdoc, Debugfile,
    Clearsolr, Skipcommit, Threads, Sussthreads, Susssize,
    Machine, Port, Solrpath, Javabin, NoJavabin,
    Logfile, Loglevel, Logbatchsize, Indexfile, Tmapdir,
    Customdir, Marctype, Encoding, Gzipped]

  /** Every option appears in the table. */
  lemma OptionsComplete(k: Key)
    ensures k in Options
  {
  }

  /** An option is offered for a command unless its `:only` list leaves the command out. */
  predicate OfferedFor(k: Key, cmd: Command)
  {
    Describe(k).only.None? || cmd in Describe(k).only.value
  }

  /** The options declared for a command, in table order (the loop that declares them skips the others). */
  function Offered(keys: seq<Key>, cmd: Command): (r: seq<Key>)
    ensures forall k :: k in r <==> k in keys && OfferedFor(k, cmd)
    ensures |r| <= |keys|
    decreases |keys|
  {
    if keys == [] then []
    else if OfferedFor(keys[0], cmd) then [keys[0]] + Offered(keys[1..], cmd)
    else Offered(keys[1..], cmd)
  }

  /** The filter keeps the table's order: what it returns is a subsequence of its input. */
  lemma {:induction false} OfferedIsSubsequence(keys: seq<Key>, cmd: Command)
    ensures IsSubsequence(Offered(keys, cmd), keys)
    decreases |keys|
  {
    if keys != [] {
      OfferedIsSubsequence(keys[1..], cmd);
    }
  }

  /** `xs` can be obtained from `ys` by deleting elements. */
  predicate IsSubsequence<T(==)>(xs: seq<T>, ys: seq<T>)
    decreases |ys|
  {
    if xs == [] then true
    else if ys == [] then false
    else if xs[0] == ys[0] then IsSubsequence(xs[1..], ys[1..])
    else IsSubsequence(xs, ys[1..])
  }

  /**
   * A fact about the table: no `:only` list names the help sub-command.
   * (The help command itself exits in `print_basic_help` before any option
   * is declared, so no run declares options for it.)
   */
  lemma HelpNeverListed(k: Key)
    ensures !OfferedFor(k, Help) <==> Describe(k).only.Some?
  {
    match k
    case Config =>
    case Benchmark =>
    case NoBenchmark =>
    case Dryrun =>
    case NoDryrun =>
    case Printmarc =>
    case NoPrintmarc =>
    case Printdoc =>
    case NoPrintdoc =>
    case Debugfile =>
    case Clearsolr =>
    case Skipcommit =>
    case Threads =>
    case Sussthreads =>
    case Susssize =>
    case Machine =>
    case Port =>
    case Solrpath =>
    case Javabin =>
    case NoJavabin =>
    case Logfile =>
    case Loglevel =>
    case Logbatchsize =>
    case Indexfile =>
    case Tmapdir =>
    case Customdir =>
    case Marctype =>
    case Encoding =>
    case Gzipped =>
  }

  /**
   * A fact about the table and the filter: applied to the help sub-command,
   * the filter keeps exactly the options without an `:only` list. No run
   * reaches the filter with help, which exits first.
   */
  lemma HelpOffersUnrestricted(keys: seq<Key>, k: Key)
    ensures k in Offered(keys, Help) <==> k in keys && Describe(k).only.None?
  {
    HelpNeverListed(k);
  }

  /** A negation option: its symbol is "NO" followed by the symbol of the option it switches off. */
  predicate IsNegation(k: Key)
  {
    k in {NoBenchmark, NoDryrun, NoPrintmarc, NoPrintdoc, NoJavabin}
  }

  /** The option a negation option switches off. */
  function Negated(k: Key): (base: Key)
    requires IsNegation(k)
    ensures !IsNegation(base) && Describe(base).only == Describe(k).only
  {
    match k
    case NoBenchmark => Benchmark
    case NoDryrun => Dryrun
    case NoPrintmarc => Printmarc
    case NoPrintdoc => Printdoc
    case NoJavabin => Javabin
  }

  /** A negation option's symbol is "NO" and the symbol of the option it switches off. */
  lemma NegationName(k: Key)
    requires IsNegation(k)
    ensures Name(k) == "NO" + Name(Negated(k))
  {
    if k in {NoBenchmark, NoDryrun, NoPrintmarc} {
      NegationNameFirst(k);
    } else {
      NegationNameRest(k);
    }
  }

  /** NegationName for the first three negation options. */
  lemma NegationNameFirst(k: Key)
    requires k in {NoBenchmark, NoDryrun, NoPrintmarc}
    ensures Name(k) == "NO" + Name(Negated(k))
  {
    if k == NoBenchmark {
      assert Name(k) == "NO" + "benchmark";
    } else if k == NoDryrun {
      assert Name(k) == "NO" + "dryrun";
    } else {
      assert Name(k) == "NO" + "printmarc";
    }
  }

  /** NegationName for the other two. */
  lemma NegationNameRest(k: Key)
    requires k in {NoPrintdoc, NoJavabin}
    ensures Name(k) == "NO" + Name(Negated(k))
  {
    if k == NoPrintdoc {
      assert Name(k) == "NO" + "printdoc";
    } else {
      assert Name(k) == "NO" + "javabin";
    }
  }

  /** Only the negation options have symbols starting with "NO". */
  lemma NegationPrefix(k: Key)
    ensures StartsWithNo(Name(k)) <==> IsNegation(k)
  {
    match k
    case Config =>
    case Benchmark =>
    case NoBenchmark =>
    case Dryrun =>
    case NoDryrun =>
    case Printmarc =>
    case NoPrintmarc =>
    case Printdoc =>
    case NoPrintdoc =>
    case Debugfile =>
    case Clearsolr =>
    case Skipcommit =>
    case Threads =>
    case Sussthreads =>
    case Susssize =>
    case Machine =>
    case Port =>
    case Solrpath =>
    case Javabin =>
    case NoJavabin =>
    case Logfile =>
    case Loglevel =>
    case Logbatchsize =>
    case Indexfile =>
    case Tmapdir =>
    case Customdir =>
    case Marctype =>
    case Encoding =>
    case Gzipped =>
  }

  /** The symbol matches /^NO/. */
  predicate StartsWithNo(s: string)
  {
    |s| >= 2 && s[0] == 'N' && s[1] == 'O'
  }

  /** No option's symbol ends in "=", so the setter-suffix rewrite never alters one. */
  lemma NameHasNoSetterSuffix(k: Key)
    ensures Name(k) != [] && Name(k)[|Name(k)| - 1] != '='
  {
    match k
    case Config =>
    case Benchmark =>
    case NoBenchmark =>
    case Dryrun =>
    case NoDryrun =>
    case Printmarc =>
    case NoPrintmarc =>
    case Printdoc =>
    case NoPrintdoc =>
    case Debugfile =>
    case Clearsolr =>
    case Skipcommit =>
    case Threads =>
    case Sussthreads =>
    case Susssize =>
    case Machine =>
    case Port =>
    case Solrpath =>
    case Javabin =>
    case NoJavabin =>
    case Logfile =>
    case Loglevel =>
    case Logbatchsize =>
    case Indexfile =>
    case Tmapdir =>
    case Customdir =>
    case Marctype =>
    case Encoding =>
    case Gzipped =>
  }

  /** The option a declared short flag stands for. */
  function ShortFlag(c: char): Option<Key>
  {
    match c
    case 'B' => Some(Benchmark)
    case 'r' => Some(Printmarc)
    case 'd' => Some(Printdoc)
    case 'C' => Some(Skipcommit)
    case 'S' => Some(Susssize)
    case 'm' => Some(Machine)
    case 'p' => Some(Port)
    case 'P' => Some(Solrpath)
    case 'L' => Some(Loglevel)
    case 'b' => Some(Logbatchsize)
    case 't' => Some(Marctype)
    case _ => None
  }

  /** Each declared short flag leads back to its own option. */
  lemma ShortFlagFinds(k: Key)
    requires Describe(k).short.Some?
    ensures ShortFlag(Describe(k).short.value) == Some(k)
  {
    match k
    case Config =>
    case Benchmark =>
    case NoBenchmark =>
    case Dryrun =>
    case NoDryrun =>
    case Printmarc =>
    case NoPrintmarc =>
    case Printdoc =>
    case NoPrintdoc =>
    case Debugfile =>
    case Clearsolr =>
    case Skipcommit =>
    case Threads =>
    case Sussthreads =>
    case Susssize =>
    case Machine =>
    case Port =>
    case Solrpath =>
    case Javabin =>
    case NoJavabin =>
    case Logfile =>
    case Loglevel =>
    case Logbatchsize =>
    case Indexfile =>
    case Tmapdir =>
    case Customdir =>
    case Marctype =>
    case Encoding =>
    case Gzipped =>
  }

  /** The short flags the table declares are pairwise different. */
  lemma ShortFlagsDistinct(k1: Key, k2: Key)
    requires Describe(k1).short.Some? && Describe(k1).short == Describe(k2).short
    ensures k1 == k2
  {
    ShortFlagFinds(k1);
    ShortFlagFinds(k2);
  }

  /** Repeatable options neither take the "none" sentinel nor restrict or open their values. */
  lemma MultiOptionsArePlain(k: Key)
    requires Describe(k).multi
    ensures k == Config || k == Customdir
    ensures !Describe(k).takesNone && Describe(k).valid.None? && !Describe(k).isOutfile
  {
  }

  /** The options that accept the "none" sentinel: the debug file, the log file and the log level. */
  lemma NoneTakers(k: Key)
    requires Describe(k).takesNone
    ensures k == Debugfile || k == Logfile || k == Loglevel
  {
  }

  /** The options with a list of valid values: the log level, the MARC type and the encoding. */
  lemma ValidListed(k: Key)
    requires Describe(k).valid.Some?
    ensures k == Loglevel || k == Marctype || k == Encoding
  {
  }

  /** Every default the table declares is one of the table's own valid values. */
  lemma DefaultsAreValid(k: Key)
    requires Describe(k).valid.Some? && Describe(k).default.Some?
    ensures Describe(k).default.value.Str?
    ensures Describe(k).default.value.s in Describe(k).valid.value
  {
  }
}
