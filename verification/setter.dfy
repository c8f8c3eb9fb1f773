/**
 * A call `conf.x(value)` or `conf.x = value` on MARC2Solr::Conf as a
 * function from the store before the call to the call's result and the
 * store after it, plus the getter `conf[:x]`.
 *
 * The names of the attribute accessors never reach the setter: the reader
 * called with an argument raises. Every other name ends in `method_missing`,
 * whose steps are, in order: drop a trailing "=" from the method name;
 * rewrite a "NO"-prefixed name; reject a name that is not an option; clear
 * the option on the "none" sentinel; check the value against the option's
 * valid values; turn an output-file value into a stream; append to a
 * repeatable option or overwrite any other.
 */
module Setter {
  import opened Wrappers
  import opened Values
  import opened Schema

  /** The configuration hash `@config`. */
  type Store = map<Key, Value>

  /** The ways a call to the setter aborts. */
  datatype Error =
    | AccessorCall(name: string)        // the name is one of the attribute accessors
    | UnknownOption(name: string)       // the name is not in VALIDOPTIONS
    | InvalidValue(key: Key, arg: Value) // the value is not in the option's `:valid` list
    | NoDowncase(key: Key, arg: Value)   // `to_a` or `downcase` fails on the value
    | CannotOpen(key: Key, path: string) // the output file cannot be opened for writing
    | BreakOutsideLoop(key: Key)         // `break` reached outside any loop or block

  /** What the value checks and conversions make of an argument. */
  datatype Coerced = Cleared | Accepted(v: Value) | Rejected(e: Error)

  /** The result of one call and the store it leaves behind. */
  datatype Outcome = Outcome(result: Result<Value, Error>, store: Store)

  /** The method name with an assignment's trailing "=" removed. */
  function MethodName(name: string): string
  {
    if name != [] && name[|name| - 1] == '=' then name[..|name| - 1] else name
  }

  /**
   * The call goes to one of the attributes declared with `attr_accessor`
   * (config, cmdline, rest, command), to its reader (`x`) or its writer
   * (`x=`): those methods exist, so `method_missing` never sees the call.
   */
  predicate IsAccessor(name: string)
  {
    var n := MethodName(name);
    n == "config" || n == "cmdline" || n == "rest" || n == "command"
  }

  /**
   * The negation rewrite: "NOx" with `true` becomes "x" with `false`; "NOx"
   * with anything else makes the call return at once (None). This happens
   * before the name is looked up.
   */
  function Negate(name: string, arg: Value): Option<(string, Value)>
  {
    if StartsWithNo(name) then
      if arg == Bool(true) then Some((name[2..], Bool(false))) else None
    else Some((name, arg))
  }

  /** An IO that `to_a` cannot read: STDOUT, STDERR or a file opened for writing. */
  predicate WriteOnly(v: Value)
  {
    (v.Std? && v.stream != Stdin) || v.Handle?
  }

  /**
   * `arg.to_a.map {|a| a.downcase}`, or None when `to_a` fails (an IO open
   * only for writing) or some element has no `downcase`. Standard input is
   * read as holding no line.
   */
  function DowncasedTokens(arg: Value): (r: Option<seq<string>>)
    ensures arg.Nil? ==> r == Some([])
    ensures arg.Str? ==> r == Some([Lower(arg.s)])
    ensures arg.Buffer? ==> r == Some([Lower(arg.text)])
    ensures arg == Std(Stdin) ==> r == Some([])
    ensures WriteOnly(arg) ==> r.None?
    ensures arg.Bool? || arg.Int? ==> r.None?
    ensures arg.List? ==> (r.Some? <==> forall i :: 0 <= i < |arg.items| ==> arg.items[i].Str?)
    ensures arg.List? && r.Some? ==>
      |r.value| == |arg.items| &&
      forall i :: 0 <= i < |arg.items| ==> arg.items[i].Str? && r.value[i] == Lower(arg.items[i].s)
    ensures r.Some? ==> arg.Nil? || arg.Str? || arg.Buffer? || arg.List? || arg == Std(Stdin)
  {
    match arg
    case Nil => Some([])
    case Str(s) => Some([Lower(s)])
    case Buffer(t) => Some([Lower(t)])
    case Std(stream) => if stream == Stdin then Some([]) else None
    case List(xs) =>
      if forall i :: 0 <= i < |xs| ==> xs[i].Str?
      then Some(seq(|xs|, i requires 0 <= i < |xs| && xs[i].Str? => Lower(xs[i].s)))
      else None
    case _ => None
  }

  /** The argument carries the "none" sentinel, in any letter case. */
  predicate SaysNone(arg: Value)
  {
    DowncasedTokens(arg).Some? && "none" in DowncasedTokens(arg).value
  }

  /**
   * The value checks and conversions of the setter, for an option that
   * exists: the "none" sentinel, the valid-value list and the output file.
   */
  function Coerce(k: Key, arg: Value, canOpen: string -> bool): (c: Coerced)
    ensures c.Cleared? <==> Describe(k).takesNone && SaysNone(arg)
    ensures c == Rejected(InvalidValue(k, arg)) <==>
              && !(Describe(k).takesNone && (DowncasedTokens(arg).None? || SaysNone(arg)))
              && Describe(k).valid.Some? && !(arg.Str? && arg.s in Describe(k).valid.value)
    ensures c.Accepted? ==> Describe(k).valid.None? || (arg.Str? && arg.s in Describe(k).valid.value)
    ensures c.Accepted? && !Describe(k).isOutfile ==> c.v == arg
    ensures c.Accepted? && Describe(k).isOutfile ==> IsStream(c.v)
    ensures Describe(k).takesNone && DowncasedTokens(arg).None? ==> c == Rejected(NoDowncase(k, arg))
    ensures !Describe(k).isOutfile && !(Describe(k).takesNone && (DowncasedTokens(arg).None? || SaysNone(arg))) &&
            (Describe(k).valid.None? || (arg.Str? && arg.s in Describe(k).valid.value)) ==>
              c == Accepted(arg)
    ensures Describe(k).isOutfile && Describe(k).valid.None? &&
            !(Describe(k).takesNone && (DowncasedTokens(arg).None? || SaysNone(arg))) ==>
              c == OpenOutput(k, arg, canOpen)
  {
    var d := Describe(k);
    if d.takesNone && DowncasedTokens(arg).None? then Rejected(NoDowncase(k, arg))
    else if d.takesNone && SaysNone(arg) then Cleared
    else if d.valid.Some? && !(arg.Str? && arg.s in d.valid.value) then Rejected(InvalidValue(k, arg))
    else if d.isOutfile then OpenOutput(k, arg, canOpen)
    else Accepted(arg)
  }

  /**
   * An output-file option's value: a stream is taken as it is, the names
   * stdin, stdout and stderr (any case) select a standard stream, and any
   * other string is a path opened for writing.
   */
  function OpenOutput(k: Key, arg: Value, canOpen: string -> bool): (c: Coerced)
    ensures c.Accepted? ==> IsStream(c.v)
    ensures c.Rejected? <==> !IsStream(arg) && (!arg.Str? || (!StandardName(arg.s) && !canOpen(arg.s)))
    ensures IsStream(arg) ==> c == Accepted(arg)
    ensures !IsStream(arg) && !arg.Str? ==> c == Rejected(NoDowncase(k, arg))
    ensures arg.Str? && Lower(arg.s) == "stdin" ==> c == Accepted(Std(Stdin))
    ensures arg.Str? && Lower(arg.s) == "stdout" ==> c == Accepted(Std(Stdout))
    ensures arg.Str? && Lower(arg.s) == "stderr" ==> c == Accepted(Std(Stderr))
    ensures arg.Str? && !StandardName(arg.s) ==>
              (c == Accepted(Handle(arg.s)) <==> canOpen(arg.s)) &&
              (c == Rejected(CannotOpen(k, arg.s)) <==> !canOpen(arg.s))
  {
    if IsStream(arg) then Accepted(arg)
    else if !arg.Str? then Rejected(NoDowncase(k, arg))
    else if Lower(arg.s) == "stdin" then Accepted(Std(Stdin))
    else if Lower(arg.s) == "stdout" then Accepted(Std(Stdout))
    else if Lower(arg.s) == "stderr" then Accepted(Std(Stderr))
    else if canOpen(arg.s) then Accepted(Handle(arg.s))
    else Rejected(CannotOpen(k, arg.s))
  }

  /** A name that selects a standard stream, in any letter case. */
  predicate StandardName(s: string)
  {
    Lower(s) in {"stdin", "stdout", "stderr"}
  }

  /**
   * What `@config[k] ||= []` starts a repeatable option from. In a
   * well-formed store such an option holds nil or an array.
   */
  function Prior(store: Store, k: Key): seq<Value>
  {
    if k in store && store[k].List? then store[k].items else []
  }

  /** The store records each option in the shape the setter leaves it in. */
  predicate WellFormed(store: Store)
  {
    forall k :: k in store && Describe(k).multi ==>
      store[k] == Nil || (store[k].List? && Flat(store[k].items))
  }

  /** Store the checked value: append and flatten for a repeatable option, overwrite otherwise. */
  function Commit(store: Store, k: Key, c: Coerced): Outcome
  {
    match c
    case Rejected(e) => Outcome(Failure(e), store)
    case Cleared => Outcome(Success(Nil), store[k := Nil])
    case Accepted(v) =>
      var stored := if Describe(k).multi then List(Flatten(Prior(store, k) + [v])) else v;
      Outcome(Success(stored), store[k := stored])
  }

  /** One call of the setter: an accessor's name raises, any other name goes to `method_missing`. */
  function Apply(store: Store, name: string, arg: Value, canOpen: string -> bool): Outcome
  {
    if IsAccessor(name) then Outcome(Failure(AccessorCall(name)), store)
    else match Negate(MethodName(name), arg)
    case None => Outcome(Success(Nil), store)
    case Some((n, a)) =>
      match Parse(n)
      case None => Outcome(Failure(UnknownOption(n)), store)
      case Some(k) => Commit(store, k, Coerce(k, a, canOpen))
  }

  /** The option a call may change: none for an accessor, an ignored negation or an unknown name. */
  function Target(name: string, arg: Value): Option<Key>
  {
    if IsAccessor(name) then None
    else match Negate(MethodName(name), arg)
    case None => None
    case Some((n, _)) => Parse(n)
  }

  /** The getter `conf[:x]`: the stored value, or nil for an option that was never set or a name that is none. */
  function Fetch(store: Store, name: string): Value
  {
    match Parse(name)
    case Some(k) => if k in store then store[k] else Nil
    case None => Nil
  }

  /** Of the options, only config shares its name with an accessor. */
  lemma NameAccessor(k: Key)
    ensures IsAccessor(Name(k)) <==> k == Config
  {
    NameHasNoSetterSuffix(k);
    match k
    case Config =>
    case Benchmark => assert Name(k) == "benchmark";
    case NoBenchmark => assert Name(k) == "NObenchmark";
    case Dryrun => assert Name(k) == "dryrun";
    case NoDryrun => assert Name(k) == "NOdryrun";
    case Printmarc => assert Name(k) == "printmarc";
    case NoPrintmarc => assert Name(k) == "NOprintmarc";
    case Printdoc => assert Name(k) == "printdoc";
    case NoPrintdoc => assert Name(k) == "NOprintdoc";
    case Debugfile => assert Name(k) == "debugfile";
    case Clearsolr => assert Name(k) == "clearsolr";
    case Skipcommit => assert Name(k) == "skipcommit";
    case Threads => assert Name(k) == "threads";
    case Sussthreads => assert Name(k) == "sussthreads";
    case Susssize => assert Name(k) == "susssize";
    case Machine => assert Name(k) == "machine";
    case Port => assert Name(k) == "port";
    case Solrpath => assert Name(k) == "solrpath";
    case Javabin => assert Name(k) == "javabin";
    case NoJavabin => assert Name(k) == "NOjavabin";
    case Logfile => assert Name(k) == "logfile";
    case Loglevel => assert Name(k) == "loglevel";
    case Logbatchsize => assert Name(k) == "logbatchsize";
    case Indexfile => assert Name(k) == "indexfile";
    case Tmapdir => assert Name(k) == "tmapdir";
    case Customdir => assert Name(k) == "customdir";
    case Marctype => assert Name(k) == "marctype";
    case Encoding => assert Name(k) == "encoding";
    case Gzipped => assert Name(k) == "gzipped";
  }

  /**
   * A call by an accessor's name raises and changes nothing: in a
   * configuration file, `config "x"` never adds a configuration file.
   */
  lemma AccessorRefused(store: Store, name: string, arg: Value, canOpen: string -> bool)
    requires IsAccessor(name)
    ensures Apply(store, name, arg, canOpen) == Outcome(Failure(AccessorCall(name)), store)
    ensures Target(name, arg) == None
  {
  }

  /** A symbol of an option other than a negation or config reaches the value checks unchanged. */
  lemma PlainNameReachesCommit(store: Store, n: string, k: Key, arg: Value, canOpen: string -> bool)
    requires n == Name(k) && !IsNegation(k) && k != Config
    ensures Apply(store, n, arg, canOpen) == Commit(store, k, Coerce(k, arg, canOpen))
    ensures Target(n, arg) == Some(k)
  {
    ParseName(k);
    NameHasNoSetterSuffix(k);
    NegationPrefix(k);
    NameAccessor(k);
  }

  /** A failed call leaves the store as it was. */
  lemma FailureKeepsStore(store: Store, name: string, arg: Value, canOpen: string -> bool)
    ensures Apply(store, name, arg, canOpen).result.Failure? ==> Apply(store, name, arg, canOpen).store == store
  {
  }

  /** Only the option the call targets can change; every other option keeps its presence and its value. */
  lemma OnlyTargetChanges(store: Store, name: string, arg: Value, canOpen: string -> bool, j: Key)
    requires Target(name, arg) != Some(j)
    ensures var s' := Apply(store, name, arg, canOpen).store;
      (j in s' <==> j in store) && (j in store ==> s'[j] == store[j])
  {
  }

  /** The setter keeps the store well-formed. */
  lemma ApplyKeepsWellFormed(store: Store, name: string, arg: Value, canOpen: string -> bool)
    requires WellFormed(store)
    ensures WellFormed(Apply(store, name, arg, canOpen).store)
  {
  }

  /** Each negation option applied with true stores false under the option it switches off, and nothing else. */
  lemma NegationStoresFalse(store: Store, neg: Key, canOpen: string -> bool)
    requires IsNegation(neg)
    ensures Apply(store, Name(neg), Bool(true), canOpen)
         == Outcome(Success(Bool(false)), store[Negated(neg) := Bool(false)])
  {
    var base := Negated(neg);
    NameAccessor(neg);
    NegationRewrite(neg);
    RewrittenReachesCommit(store, Name(neg), Bool(true), Name(base), Bool(false), base, canOpen);
    assert Coerce(base, Bool(false), canOpen) == Accepted(Bool(false));
  }

  /** Once the name is rewritten and found, the call is the value checks and the store step. */
  lemma RewrittenReachesCommit(store: Store, name: string, arg: Value, n: string, a: Value, k: Key,
                               canOpen: string -> bool)
    requires !IsAccessor(name) && Negate(MethodName(name), arg) == Some((n, a)) && Parse(n) == Some(k)
    ensures Apply(store, name, arg, canOpen) == Commit(store, k, Coerce(k, a, canOpen))
  {
  }

  /** The negation rewrite turns a negation option's symbol with true into its base option with false. */
  lemma NegationRewrite(neg: Key)
    requires IsNegation(neg)
    ensures Negate(MethodName(Name(neg)), Bool(true)) == Some((Name(Negated(neg)), Bool(false)))
    ensures Parse(Name(Negated(neg))) == Some(Negated(neg))
  {
    NameHasNoSetterSuffix(neg);
    NegationName(neg);
    assert Name(neg)[2..] == Name(Negated(neg));
    ParseName(Negated(neg));
  }

  /**
   * A "NO"-prefixed name applied with anything but true changes nothing
   * and returns nil, whether or not the rest of the name is an option.
   */
  lemma NegationOtherwiseIgnored(store: Store, name: string, arg: Value, canOpen: string -> bool)
    requires StartsWithNo(MethodName(name)) && arg != Bool(true)
    ensures Apply(store, name, arg, canOpen) == Outcome(Success(Nil), store)
  {
  }

  /**
   * A name that is no accessor and not an option once the negation is
   * rewritten is refused with UnknownOption and leaves the store unchanged;
   * no other call is refused with UnknownOption.
   */
  lemma UnknownNameRefused(store: Store, name: string, arg: Value, canOpen: string -> bool)
    ensures var o := Apply(store, name, arg, canOpen);
      (o.result.Failure? && o.result.error.UnknownOption?) <==>
      (!IsAccessor(name) && Negate(MethodName(name), arg).Some? && Parse(Negate(MethodName(name), arg).value.0).None?)
    ensures var o := Apply(store, name, arg, canOpen);
      o.result.Failure? && o.result.error.UnknownOption? ==> o.store == store
  {
  }

  /** The "none" sentinel, in any case, clears an option that takes it, whatever it held before. */
  lemma NoneClears(store: Store, n: string, k: Key, arg: Value, canOpen: string -> bool)
    requires n == Name(k) && Describe(k).takesNone && SaysNone(arg)
    ensures Apply(store, n, arg, canOpen) == Outcome(Success(Nil), store[k := Nil])
  {
    NoneTakers(k);
    PlainNameReachesCommit(store, n, k, arg, canOpen);
    assert Coerce(k, arg, canOpen) == Cleared;
  }

  /**
   * For an option with a list of valid values, a value that is not exactly
   * (case included) one of them is refused and leaves the store unchanged,
   * unless the "none" sentinel cleared the option first.
   */
  lemma InvalidValueRefused(store: Store, n: string, k: Key, arg: Value, canOpen: string -> bool)
    requires n == Name(k) && Describe(k).valid.Some?
    requires !(arg.Str? && arg.s in Describe(k).valid.value)
    requires !(Describe(k).takesNone && SaysNone(arg))
    ensures Apply(store, n, arg, canOpen).result.Failure?
    ensures Apply(store, n, arg, canOpen).store == store
  {
    ValidListed(k);
    PlainNameReachesCommit(store, n, k, arg, canOpen);
    assert Coerce(k, arg, canOpen).Rejected?;
  }

  /**
   * The debug file option ends up holding a stream, or nil for "none",
   * never a bare string: the names stdin, stdout and stderr select the
   * standard streams, a StringIO is kept, and any other name is the file
   * opened on that path.
   */
  lemma DebugfileHoldsStream(store: Store, n: string, arg: Value, canOpen: string -> bool)
    requires n == Name(Debugfile)
    requires Apply(store, n, arg, canOpen).result.Success?
    ensures Debugfile in Apply(store, n, arg, canOpen).store
    ensures var v := Apply(store, n, arg, canOpen).store[Debugfile];
      v == Nil || IsStream(v)
    ensures arg.Str? && Lower(arg.s) == "stdin" ==> Apply(store, n, arg, canOpen).store[Debugfile] == Std(Stdin)
    ensures arg.Str? && Lower(arg.s) == "stdout" ==> Apply(store, n, arg, canOpen).store[Debugfile] == Std(Stdout)
    ensures arg.Str? && Lower(arg.s) == "stderr" ==> Apply(store, n, arg, canOpen).store[Debugfile] == Std(Stderr)
    ensures arg.Str? && Lower(arg.s) == "none" ==> Apply(store, n, arg, canOpen).store[Debugfile] == Nil
    ensures arg.Str? && !StandardName(arg.s) && Lower(arg.s) != "none" ==>
      Apply(store, n, arg, canOpen).store[Debugfile] == Handle(arg.s) && canOpen(arg.s)
    ensures arg.Buffer? && Lower(arg.text) != "none" ==> Apply(store, n, arg, canOpen).store[Debugfile] == arg
    ensures arg == Std(Stdin) ==> Apply(store, n, arg, canOpen).store[Debugfile] == arg
  {
    PlainNameReachesCommit(store, n, Debugfile, arg, canOpen);
  }

  /**
   * STDOUT, STDERR or a file opened for writing, given to the debug file
   * option, is refused before the output step: `to_a` cannot read it.
   */
  lemma OpenStreamRefused(store: Store, n: string, arg: Value, canOpen: string -> bool)
    requires n == Name(Debugfile) && WriteOnly(arg)
    ensures Apply(store, n, arg, canOpen) == Outcome(Failure(NoDowncase(Debugfile, arg)), store)
  {
    PlainNameReachesCommit(store, n, Debugfile, arg, canOpen);
  }

  /**
   * A StringIO that does not say "none", or STDIN, given to the debug file
   * option, passes the "none" and valid-value checks and reaches the output
   * step; the step as written raises there, and the call fails with the
   * store unchanged.
   */
  lemma StreamReachesBreak(store: Store, n: string, arg: Value, canOpen: string -> bool)
    requires n == Name(Debugfile)
    requires (arg.Buffer? && Lower(arg.text) != "none") || arg == Std(Stdin)
    ensures Apply(store, n, arg, canOpen) == Commit(store, Debugfile, OpenOutput(Debugfile, arg, canOpen))
    ensures Commit(store, Debugfile, OpenOutputAsWritten(Debugfile, arg, canOpen))
         == Outcome(Failure(BreakOutsideLoop(Debugfile)), store)
  {
    PlainNameReachesCommit(store, n, Debugfile, arg, canOpen);
  }

  /** With the intended output step, that stream is stored and returned as it is. */
  lemma StreamKept(store: Store, n: string, arg: Value, canOpen: string -> bool)
    requires n == Name(Debugfile)
    requires (arg.Buffer? && Lower(arg.text) != "none") || arg == Std(Stdin)
    ensures Apply(store, n, arg, canOpen) == Outcome(Success(arg), store[Debugfile := arg])
  {
    StreamReachesBreak(store, n, arg, canOpen);
  }

  /**
   * A single-valued option that is not an output file stores and returns a
   * value that passes the "none" check and is listed (or the option has no
   * list): `marctype "marcxml"`, `loglevel "DEBUG"`, a log file path,
   * `logfile STDIN`.
   */
  lemma AcceptedValueStored(store: Store, n: string, k: Key, arg: Value, canOpen: string -> bool)
    requires n == Name(k) && !IsNegation(k) && !Describe(k).multi && !Describe(k).isOutfile
    requires !(Describe(k).takesNone && (DowncasedTokens(arg).None? || SaysNone(arg)))
    requires Describe(k).valid.None? || (arg.Str? && arg.s in Describe(k).valid.value)
    ensures Apply(store, n, arg, canOpen) == Outcome(Success(arg), store[k := arg])
  {
    assert k != Config;
    PlainNameReachesCommit(store, n, k, arg, canOpen);
  }

  /**
   * The output-file step as written: the statement meant to take a stream
   * as it is is a `break` outside any loop or block, which raises instead.
   */
  function OpenOutputAsWritten(k: Key, arg: Value, canOpen: string -> bool): (c: Coerced)
    ensures !IsStream(arg) ==> c == OpenOutput(k, arg, canOpen)
    ensures IsStream(arg) ==> c == Rejected(BreakOutsideLoop(k))
  {
    if IsStream(arg) then Rejected(BreakOutsideLoop(k)) else OpenOutput(k, arg, canOpen)
  }

  /** A stream given to an output-file option: refused as written, kept as it is by the intended step. */
  lemma StreamOutputDiffers(k: Key, arg: Value, canOpen: string -> bool)
    requires IsStream(arg)
    ensures OpenOutputAsWritten(k, arg, canOpen) == Rejected(BreakOutsideLoop(k))
    ensures OpenOutput(k, arg, canOpen) == Accepted(arg)
  {
  }

  /**
   * A repeatable option gets the new value appended and the whole flattened:
   * the earlier entries stay in front, in order, and no nested array remains.
   * The call returns the stored array, and no other option changes.
   */
  lemma MultiAppends(store: Store, n: string, k: Key, arg: Value, canOpen: string -> bool)
    requires WellFormed(store)
    requires n == Name(k) && Describe(k).multi && k != Config
    ensures var stored := List(Prior(store, k) + Flatten([arg]));
      Apply(store, n, arg, canOpen) == Outcome(Success(stored), store[k := stored])
    ensures Flat(Prior(store, k) + Flatten([arg]))
  {
    MultiOptionsArePlain(k);
    PlainNameReachesCommit(store, n, k, arg, canOpen);
    FlattenAppend(Prior(store, k), [arg]);
    FlattenFlat(Prior(store, k));
  }

  /** Any other option is overwritten: its new value does not depend on what it held. */
  lemma SingleOverwrites(s1: Store, s2: Store, name: string, arg: Value, canOpen: string -> bool, k: Key)
    requires Target(name, arg) == Some(k) && !Describe(k).multi
    ensures Apply(s1, name, arg, canOpen).result == Apply(s2, name, arg, canOpen).result
    ensures Apply(s1, name, arg, canOpen).result.Success? ==>
      Apply(s1, name, arg, canOpen).store[k] == Apply(s2, name, arg, canOpen).store[k]
  {
  }

  /**
   * A successful call returns what it stored under its option; a call
   * with no option to change returns nil and leaves the store alone.
   */
  lemma ResultIsStoredValue(store: Store, name: string, arg: Value, canOpen: string -> bool)
    requires Apply(store, name, arg, canOpen).result.Success?
    ensures var o := Apply(store, name, arg, canOpen);
      match Target(name, arg)
      case Some(k) => k in o.store && o.result.value == o.store[k]
      case None => o.result.value == Nil && o.store == store
  {
  }

  /** Reading an option back after setting it yields what the setter returned. */
  lemma ReadAfterWrite(store: Store, n: string, k: Key, arg: Value, canOpen: string -> bool)
    requires n == Name(k) && !IsNegation(k) && k != Config
    requires Apply(store, n, arg, canOpen).result.Success?
    ensures Fetch(Apply(store, n, arg, canOpen).store, n) == Apply(store, n, arg, canOpen).result.value
  {
    PlainNameReachesCommit(store, n, k, arg, canOpen);
  }
}
