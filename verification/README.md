# MARC2Solr configuration, modelled in Dafny

`MARC2Solr::Conf` (lib/marc2solr.rb) is the configuration object of the
marc2solr command-line tool. The tool indexes MARC bibliographic records
into Solr. The object does five things:

- It holds a static option schema: the OPTIONSCONFIG table and its
  VALIDOPTIONS index. Each entry can declare a type, a default, a short
  flag, the sub-commands that offer it (`:only`), whether it repeats
  (`:multi`), whether it accepts the "none" sentinel (`:takesNone`), its
  valid values (`:valid`), and whether its value is an output file
  (`:isOutfile`).
- It has one dynamic setter and getter. A call `conf.x(value)` or
  `conf.x = value` in a configuration file, or the merge of the parsed
  command line, ends in `method_missing`, unless `x` is one of the
  attributes declared with `attr_accessor` (config, cmdline, rest,
  command), whose own methods answer instead. `method_missing`:
  - rewrites negated `NOx` names;
  - refuses unknown names;
  - clears an option on "none";
  - checks valid values;
  - opens output files;
  - appends to repeatable options and overwrites the others.
- Its constructor merges three tiers:
  - every configuration file, in the order given;
  - then the command-line values given explicitly, as overrides;
  - then the other command-line values (the option parser's defaults),
    only for options no configuration file set.
- It builds the Solr update URL from the machine, port and solrpath
  options (`sussURL`).
- It decides how the master logger and the MARC reader are set up. This
  covers the log level and the log target; for a file name, it covers the
  record format, the encoding, and whether the file is decompressed.

The model is split into modules:

- `Values`: the Ruby values the store holds (StringIO included),
  `Array#flatten`, and `String#downcase`.
- `Schema`: the table.
- `Setter`: one call of the setter as the pure function `Apply`: the
  accessor names first, then `method_missing`. It maps the store before
  the call to the call's result and the store after it.
- `Merge`: the constructor's merge, as functions over directive sequences.
- `Configuration`: the object itself.
- `Solr`, `Logging`, `Reader`: the three decision procedures.

The configuration files are Ruby code run by `instance_eval`. Their effect
on the object is a sequence of setter calls, so a file is modelled as a
sequence of `Directive`s (name and argument). The parsed command line is
also a sequence of directives: its entries in hash order, including the
"x_given" markers.

Opening a file for writing is the parameter `canOpen`. The log file's
timestamp is the parameter `stamp`.

## Model

| member | source | states |
|---|---|---|
| Schema.Parse | lib/marc2solr.rb:129-130 | A symbol VALIDOPTIONS recognises is the symbol of the option it returns |
| Schema.ParseName | lib/marc2solr.rb:17-130 | Every OPTIONSCONFIG entry's symbol is found in VALIDOPTIONS as that entry |
| Schema.NameInjective | lib/marc2solr.rb:17-130 | No two entries share a symbol, so the index loses no entry |
| Schema.OptionsComplete | lib/marc2solr.rb:17-127 | Every option is in the table |
| Schema.Offered | lib/marc2solr.rb:219-225 | An option is declared for a command exactly when it is in the table and its `:only` list is absent or names the command; no more options than the table |
| Schema.OfferedIsSubsequence | lib/marc2solr.rb:219-225 | The options are declared in table order: the filtered list is a subsequence of the table |
| Schema.HelpNeverListed | lib/marc2solr.rb:17-127 | A fact about the table: an option is withheld from the help command exactly when it has an `:only` list. No run declares options for help, which exits first |
| Schema.HelpOffersUnrestricted | lib/marc2solr.rb:219-225 | A fact about the filter: applied to help it keeps exactly the unrestricted options (help itself exits before the filter runs) |
| Schema.Negated | lib/marc2solr.rb:25-45 | The option a NO-entry switches off is itself not a negation, and is offered for the same commands |
| Schema.NegationName | lib/marc2solr.rb:25-45 | Each negation's symbol is "NO" and its base option's symbol |
| Schema.NegationPrefix | lib/marc2solr.rb:277 | A symbol matches /^NO/ exactly when its option is a negation option |
| Schema.NameHasNoSetterSuffix | lib/marc2solr.rb:274 | No option's symbol ends in "=", so the suffix strip never changes one |
| Schema.ShortFlagFinds | lib/marc2solr.rb:17-127 | Each declared short flag leads back to its own option |
| Schema.ShortFlagsDistinct | lib/marc2solr.rb:17-127 | No two options declare the same short flag |
| Schema.MultiOptionsArePlain | lib/marc2solr.rb:17-127 | The repeatable options are config and customdir, and neither takes "none", restricts values, or opens files |
| Schema.NoneTakers | lib/marc2solr.rb:17-127 | Only debugfile, logfile and loglevel accept "none" |
| Schema.ValidListed | lib/marc2solr.rb:90-121 | Only loglevel, marctype and encoding have lists of valid values |
| Schema.DefaultsAreValid | lib/marc2solr.rb:90-121 | Every declared default is one of its option's valid values |
| Values.Flatten | lib/marc2solr.rb:328 | `flatten!` leaves no nested array; with FlattenLeaf, FlattenNested and FlattenAppend it is fixed on every array |
| Values.FlattenLeaf | lib/marc2solr.rb:328 | A value that is not an array is kept as it is |
| Values.FlattenNested | lib/marc2solr.rb:328 | A nested array is replaced by its own elements, flattened, so no element is dropped |
| Values.FlattenAppend | lib/marc2solr.rb:326-328 | Flattening distributes over appending, so earlier entries keep their place and order |
| Values.FlattenIdempotent | lib/marc2solr.rb:328 | Flattening a flattened array changes nothing |
| Values.Lower | lib/marc2solr.rb:291 | `downcase` keeps the length, lowers each ASCII capital and leaves no capital behind |
| Values.LowerIdempotent | lib/marc2solr.rb:291 | Lower-casing twice is lower-casing once |
| Setter.DowncasedTokens | lib/marc2solr.rb:291 | nil has no tokens; a string or StringIO is one token, lower-cased; an array gives each element lower-cased, and fails when one is not a string; STDOUT, STDERR, a file opened for writing, a flag or a number fail (`to_a` or `downcase` raises); STDIN is read as holding no line |
| Setter.Coerce | lib/marc2solr.rb:290-322 | Cleared exactly for a none-taking option given "none"; a none-taking option given a value without tokens fails with NoDowncase; refused as invalid exactly when a valid list excludes the value; any other option that is not an output file accepts its value unchanged (a listed loglevel, marctype or encoding, a log file path); an output option past the checks gets the output step; an accepted value is valid, and a stream for an output option |
| Setter.AcceptedValueStored | lib/marc2solr.rb:288-333 | A single-valued option that is not an output file stores and returns a value that passes the "none" check and is listed: `marctype "marcxml"`, `loglevel "DEBUG"`, a log file path, STDIN |
| Setter.OpenOutput | lib/marc2solr.rb:306-322 | A stream (IO or StringIO) is kept; "stdin", "stdout", "stderr" in any case select the standard streams; any other string becomes the file on that path exactly when it can be opened, and otherwise fails with CannotOpen naming the option and the path; a non-string fails at `downcase` |
| Setter.NameAccessor | lib/marc2solr.rb:140 | Of the option symbols, only config is an accessor's name |
| Setter.AccessorRefused | lib/marc2solr.rb:140 | A call by an accessor's name (reader or writer) fails and changes nothing, and targets no option |
| Setter.PlainNameReachesCommit | lib/marc2solr.rb:288-333 | The symbol of an option other than a negation or config goes straight to the value checks and the store step |
| Setter.FailureKeepsStore | lib/marc2solr.rb:272-337 | A call that raises leaves the store unchanged |
| Setter.OnlyTargetChanges | lib/marc2solr.rb:272-337 | Every option other than the call's target keeps its presence and its value |
| Setter.ApplyKeepsWellFormed | lib/marc2solr.rb:325-331 | Repeatable options always hold nil or a flat array |
| Setter.NegationStoresFalse | lib/marc2solr.rb:277-281 | A negation option given true stores false under its base option, returns false, and changes nothing else |
| Setter.NegationRewrite | lib/marc2solr.rb:274-281 | `NOx=` with true is rewritten to `x` with false, and `x` is an option |
| Setter.NegationOtherwiseIgnored | lib/marc2solr.rb:277-285 | A NO-name with anything but true returns nil and changes nothing, even if the rest of the name is no option |
| Setter.UnknownNameRefused | lib/marc2solr.rb:288-336 | A call raises UnknownOption, without changing the store, exactly when its name is no accessor and the rewritten name is not an option |
| Setter.NoneClears | lib/marc2solr.rb:291-294 | "none" in any case sets a none-taking option to nil and returns nil, whatever it held |
| Setter.InvalidValueRefused | lib/marc2solr.rb:298-302 | A value outside the valid list, case included, raises and leaves the store unchanged, unless "none" cleared the option first |
| Setter.DebugfileHoldsStream | lib/marc2solr.rb:306-322 | After a successful set, debugfile holds a stream or nil: stdin, stdout and stderr select the standard streams, "none" gives nil, any other name is the file opened on it, and a StringIO or STDIN is kept |
| Setter.OpenStreamRefused | lib/marc2solr.rb:291 | STDOUT, STDERR or a file opened for writing, given to debugfile, fails at `to_a` before the output step, and the store is unchanged |
| Setter.StreamReachesBreak | lib/marc2solr.rb:291-308 | A StringIO not saying "none", or STDIN, passes the checks and reaches the output step, where the step as written fails and leaves the store unchanged |
| Setter.StreamKept | lib/marc2solr.rb:306-333 | With the intended output step, that StringIO or STDIN is stored under debugfile and returned |
| Setter.OpenOutputAsWritten | lib/marc2solr.rb:306-322 | For anything but a stream, the step as written matches the intended one; for a stream it fails with the `break` |
| Setter.StreamOutputDiffers | lib/marc2solr.rb:308 | Taken alone, the output step refuses a stream as written (the `break`) but the intended step keeps it. Through the setter a StringIO or STDIN gets there (StreamReachesBreak) |
| Setter.MultiAppends | lib/marc2solr.rb:325-333 | A repeatable option other than config (whose name is an accessor) gets the flattened value appended after its earlier entries, and the call returns the array |
| Setter.SingleOverwrites | lib/marc2solr.rb:329-330 | Any other option's result and new value do not depend on what the store held |
| Setter.ResultIsStoredValue | lib/marc2solr.rb:291-333 | A successful call returns what it stored; with no target it returns nil and changes nothing |
| Setter.ReadAfterWrite | lib/marc2solr.rb:186-188 | Reading an option back after setting it yields what the setter returned |
| Merge.RunAppend | lib/marc2solr.rb:146-151 | Two directive lists run one after the other give the same result as their concatenation |
| Merge.FilesInOrder | lib/marc2solr.rb:146-151 | Reading the files one by one is one stream of their directives in file order |
| Merge.SuccessMeansAllKnown | lib/marc2solr.rb:146-151 | A file that loads contains no accessor name and no unknown name |
| Merge.RunKeepsUntargeted | lib/marc2solr.rb:146-151 | Directives that never target an option leave its entry as it was |
| Merge.RunKeepsWellFormed | lib/marc2solr.rb:146-151 | Loading files keeps repeatable options nil or flat arrays |
| Merge.FilesFailureSticks | lib/marc2solr.rb:146-151 | Once a prefix of the files fails, the load fails with that error |
| Merge.RunFailureSticks | lib/marc2solr.rb:149 | Once a prefix of a file's directives fails, the file fails with that error |
| Merge.Settings | lib/marc2solr.rb:155-169 | The values left to merge contain no config entry, help entry or marker, and come from the command line |
| Merge.SettingsAppend | lib/marc2solr.rb:155-169 | The filter works entry by entry and keeps the order: the kept entries of a concatenation are those of each part |
| Merge.SettingsOne | lib/marc2solr.rb:155-169 | A single entry is kept exactly when it is neither discarded nor a marker |
| Merge.MarkersMeaning | lib/marc2solr.rb:163-169 | An option is marked as given exactly when some kept "x_given" entry names it |
| Merge.KeptEntry | lib/marc2solr.rb:155-169 | An entry that is neither discarded nor a marker reaches the merge |
| Merge.MarkerOfKept | lib/marc2solr.rb:155-169 | The marker of a kept non-empty name is a marker for that name and is not discarded |
| Merge.GivenPairKept | lib/marc2solr.rb:155-174 | An option given on the command line, with its value entry and its "x_given" entry, reaches the merge as a value marked as given, which the override lemmas take as input |
| Merge.RunCliAppend | lib/marc2solr.rb:171-181 | The command-line merge splits at any point into its first part and the rest |
| Merge.CliFailureStops | lib/marc2solr.rb:171-181 | A command-line value that raises aborts the merge with its error |
| Merge.RunCliKeepsUntargeted | lib/marc2solr.rb:171-181 | Command-line values that never target an option leave its entry as it was |
| Merge.SplitAt | lib/marc2solr.rb:171-181 | A successful merge runs the values before an entry, then that entry, then the rest |
| Merge.SameEntrySameOutcome | lib/marc2solr.rb:272-337 | A call's result and its option's new entry depend only on that option's old entry |
| Merge.ExplicitValueWins | lib/marc2solr.rb:171-174 | A given command-line value for a single-valued option that no later entry targets ends up stored, whatever the files set |
| Merge.DefaultsSkipPresent | lib/marc2solr.rb:175-179 | A value not given explicitly leaves an option the store already holds as it was |
| Merge.FileValueBeatsDefault | lib/marc2solr.rb:175-179 | An option a file set, nil included, keeps the file's value when the command line carries only its default |
| Merge.StepFillsGap | lib/marc2solr.rb:171-181 | A value for an option the store lacks is applied, as it would be to an empty store |
| Merge.UnsetOptionTakesCommandLine | lib/marc2solr.rb:171-181 | An option no file set gets the value its one command-line entry stores in an empty configuration |
| Merge.Contributions | lib/marc2solr.rb:325-328 | The values a directive list adds to a repeatable option contain no nested array |
| Merge.StepCollects | lib/marc2solr.rb:325-328 | One directive appends its contribution to a repeatable option |
| Merge.RunCollects | lib/marc2solr.rb:146-151 | Over a file that loads, a repeatable option collects every directive's values in order. For config that is one false per `NOconfig true` line (NoConfigCollectsFalse); a `config x` line aborts the load (AccessorRefused). Customdir collects every value its lines give |
| Merge.NoConfigCollectsFalse | lib/marc2solr.rb:272-333 | `NOconfig true` adds false to config through the negation rewrite; `config x` adds nothing to it |
| Merge.RunCliKeepsWellFormed | lib/marc2solr.rb:171-181 | The command-line merge keeps repeatable options nil or flat arrays |
| Merge.CliStepCollects | lib/marc2solr.rb:171-181 | A given command-line value appends its contribution |
| Merge.RunCliCollects | lib/marc2solr.rb:171-181 | Given command-line values for a repeatable option are collected in order |
| Merge.RepeatableCollectsAll | lib/marc2solr.rb:141-181 | A repeatable option ends with the files' values in file order, then the command line's. Customdir collects its values from both tiers. Config collects false for each `NOconfig true` line, and its command-line entry is discarded |
| Merge.ResolveMeansKnownFileNames | lib/marc2solr.rb:141-151 | A successful construction met no accessor name and no unknown name in any configuration file |
| Configuration.Conf.constructor | lib/marc2solr.rb:142 | The configuration starts empty |
| Configuration.Conf.Get | lib/marc2solr.rb:186-188 | The getter of a stored option is its stored value; it is nil for an option that is not stored and for a symbol that names no option |
| Configuration.Conf.Set | lib/marc2solr.rb:272-337 | The in-place setter (accessor names refused, then `method_missing`) returns and stores exactly what `Apply` gives, and keeps the store well-formed |
| Configuration.Conf.ReadFile | lib/marc2solr.rb:147-150 | One file's directives update the store as `Run` does, and its error is reported |
| Configuration.Conf.ReadFiles | lib/marc2solr.rb:146-151 | The files update the store as `RunFiles` does |
| Configuration.Conf.SplitCommandLine | lib/marc2solr.rb:155-169 | The parsed command line is split into the values to merge (`Settings`: SettingsAppend, SettingsOne) and the set of given names (`Markers`: MarkersMeaning) |
| Configuration.Conf.ApplyCommandLine | lib/marc2solr.rb:171-181 | The command-line values update the store as `RunCli` does |
| Configuration.Conf.Load | lib/marc2solr.rb:141-183 | Construction leaves the store `Resolve` computes and the remaining words, or stops at the first error |
| Solr.StripLeadingSlashes | lib/marc2solr.rb:361 | On a one-line path only a leading slash is dropped; the result is never longer than the path |
| Solr.MissingReported | lib/marc2solr.rb:343-359 | The first unset, nil or false option among machine, port and solrpath is reported, in that order |
| Solr.UrlShape | lib/marc2solr.rb:342-362 | A URL is built exactly when the three options are usable, and it reads http://machine:port/path with the path's leading slash dropped |
| Solr.UrlBuilt | lib/marc2solr.rb:342-362 | A URL is built exactly when machine and solrpath are strings and port is a string or an integer |
| Solr.UrlLayout | lib/marc2solr.rb:361 | The URL's characters are the scheme, machine, colon, port, slash and path, in that order |
| Solr.NumberOfDigits | lib/marc2solr.rb:361 | An integer port's decimal text reads back as the number |
| Solr.CorrectionKeepsStringPorts | lib/marc2solr.rb:342-362 | Where the method as written builds a URL, the corrected one builds the same |
| Solr.IntegerPortRefused | lib/marc2solr.rb:361 | With machine and path set, an integer port makes the method as written fail |
| Solr.UrlOfParts | lib/marc2solr.rb:361 | Three string options give the URL of their texts |
| Solr.IntegerPortExample | lib/marc2solr.rb:342-362 | For solr.example.org, port 8983 and solr/biblio, the method as written fails and the corrected one gives http://solr.example.org:8983/solr/biblio |
| Solr.ExampleFromStore | lib/marc2solr.rb:342-362 | The corrected method gives http://solr.example.org:8983/solr/biblio for that store, with the port the integer 8983 |
| Logging.CutAtDot | lib/marc2solr.rb:381 | The cut name has no dot and is no longer than the input |
| Logging.CutKeepsPrefix | lib/marc2solr.rb:381 | On a one-line name, the cut keeps exactly what precedes the first dot |
| Logging.TargetChoice | lib/marc2solr.rb:385-394 | The log goes to the console exactly for STDERR, nowhere exactly for NONE or nil, and otherwise to the named file |
| Logging.DefaultLogFile | lib/marc2solr.rb:378-389 | DEFAULT names the log after the first input file's base name up to its first dot, then the timestamp and ".log" |
| Logging.NoneTurnsLoggingOff | lib/marc2solr.rb:385-394 | Setting logfile to "none" in any case turns logging off |
| Reader.Basename | lib/marc2solr.rb:410 | `File.basename` contains no slash, unless it is "/" itself |
| Reader.SuffixAfterSlash | lib/marc2solr.rb:410 | What follows the last slash of "d/b", for a b with no slash, is b |
| Reader.BasenameOfPath | lib/marc2solr.rb:410 | The base name of a path "d/b" whose last component b is not empty is b |
| Reader.BasenameOfPlainName | lib/marc2solr.rb:410 | A name without a slash is its own base name |
| Reader.SplitJoin | lib/marc2solr.rb:410 | Joining the dot-separated fields with dots gives back the name |
| Reader.DropTrailingEmpty | lib/marc2solr.rb:410 | `split` drops the trailing empty fields and nothing else |
| Reader.FormatFor | lib/marc2solr.rb:417-424 | A field containing "xml" selects MARC-XML; otherwise one containing "seq" or "aleph" selects Aleph sequential; anything else falls back to permissive MARC |
| Reader.ConfiguredFormatKept | lib/marc2solr.rb:400-430 | A configured format other than bestguess is used, lower-cased, and nothing is sniffed |
| Reader.OptionsMustBeText | lib/marc2solr.rb:400-401 | A format or encoding option that is not a string is an error |
| Reader.NoExtensionFallsBack | lib/marc2solr.rb:425-437 | A name with no extension is read as permissive MARC, decompressed only when configured |
| Reader.GzipSniffed | lib/marc2solr.rb:410-414 | A last field "gz" in any case means gzipped, and the field before it decides the format |
| Reader.LastFieldSniffed | lib/marc2solr.rb:410-424 | Otherwise the last field decides the format, and the name does not mean gzipped |
| Reader.GunzipIsSniffedOrConfigured | lib/marc2solr.rb:407-439 | The reader decompresses exactly when the sniffed name ends in .gz or the gzipped option is truthy |
| Reader.EncodingChoice | lib/marc2solr.rb:401-405 | The encoding is left to the parser exactly when it is bestguess, and is otherwise the lower-cased option |
| Reader.StdinSource | lib/marc2solr.rb:432-435 | Standard input is read exactly for the name STDIN |
| Reader.DotMakesExtension | lib/marc2solr.rb:409 | A dot followed by a character other than a line break makes an extension |
| Reader.NoDotNoExtension | lib/marc2solr.rb:409 | A name with no dot has no extension |
| Reader.PlanFromSniff | lib/marc2solr.rb:408-439 | When sniffing, the plan carries the sniffed format, and decompresses if the name or the option says so |
| Reader.SniffOneDot | lib/marc2solr.rb:409-424 | "a.x" is read in the format x names, not decompressed, unless x is gz |
| Reader.SniffGzipped | lib/marc2solr.rb:409-424 | "a.x.gz" is decompressed and read in the format x names |
| Reader.XmlExample | lib/marc2solr.rb:417-419 | "bib.xml" is read as MARC-XML, not decompressed |
| Reader.SeqExample | lib/marc2solr.rb:420-421 | "bib.seq" is read as Aleph sequential, not decompressed |
| Reader.GzExample | lib/marc2solr.rb:410-424 | "bib.mrc.gz" is decompressed and read as permissive MARC |
| Reader.BareNameExample | lib/marc2solr.rb:425-427 | "catalog" is read as permissive MARC, decompressed only when configured |

The functions that define the behaviour carry no contract of their own.
Their properties are the lemmas above. These functions are:

- `Schema.Describe`, the table;
- `Setter.Apply`, `Setter.Commit` and `Setter.Fetch`, the setter and the
  getter;
- `Merge.Run`, `Merge.RunFiles`, `Merge.Markers`, `Merge.RunCli` and
  `Merge.Resolve`, the merge;
- `Solr.SussUrl` and `Solr.SussUrlAsWritten`;
- `Logging.LoggerSetup`;
- `Reader.Sniff` and `Reader.Plan`.

The code differs from the option descriptions in a few places, and the
model follows the code:

- A `NO`-prefixed name is rewritten before the name is looked up. Any
  value other than `true` makes the call a no-op, not only `false`.
- `flatten!` flattens every level, not one.
- The MARC type and encoding options are lower-cased before use, not
  passed on verbatim.
- An integer port does not produce a URL (see Findings).

## Left out

- Command-line parsing, usage text and `exit` are not modelled. This
  covers Trollop, `command_line_opts`, `print_basic_help` and
  `print_command_help`. The parsed command line is an input. So is the
  sub-command, as the `Command` type in `Schema.Offered`. The unknown
  option's message interpolates `@cmd`, which is never set; messages are
  not modelled.
- Short flags: only the ones the table declares are modelled, not those
  the option parser would assign itself.
- `instance_eval` of configuration files is not modelled. A file's effect
  is its sequence of setter calls (`Directive`s). Ruby code in a file
  beyond setter calls is not modelled.
- File input and output are not modelled. Opening a file for writing is
  the `canOpen` parameter. When `File.new` cannot open the file it raises,
  so the `Trollop.die` after it never runs. The model turns that exception
  into the `CannotOpen` error.
- `Setter.DowncasedTokens`: `String#to_a` of Ruby 1.8 and `StringIO#to_a`
  split their text into lines. The model treats a string's or a StringIO's
  text as one token, so "none" on a later line of a multi-line value is not
  recognised.
- `Setter.Coerce`: STDOUT, STDERR, a file opened for writing, a flag or a
  number given to a none-taking option makes `to_a` or `downcase` raise.
  The IO raises IOError, since it is not open for reading; the others
  raise NoMethodError. All are modelled as the `NoDowncase` error, not as
  Ruby's exception classes.
- `Setter.DowncasedTokens`: `STDIN.to_a` reads the lines of standard
  input. Standard input is not modelled: it is taken to hold no line. So
  a line saying "none" on standard input does not clear the option, and
  the lines the setter consumes are not missing from a later read of
  MARC records from STDIN.
- `Setter.Apply`: the writers of the accessors are not modelled. In a
  configuration file, `self.config = x` replaces the whole `@config` hash,
  `self.cmdline = x` replaces the parsed command line before it is merged,
  and `self.rest = x` and `self.command = x` set those attributes. The
  model refuses these calls with `AccessorCall`, like the readers, which
  raise ArgumentError when given an argument.
- `Configuration.Conf.Get`: it models `conf[:x]`. `conf.config`,
  `conf.rest` and the other accessor readers return the attribute itself
  (the whole hash for config); that is not modelled.
- `Setter.InvalidValueRefused`: line 300 lacks the comma after
  `ArgumentError`, so the raise is itself a NoMethodError. The model keeps
  the abort and the unchanged store, and reports it as `InvalidValue`.
- `Merge.Markers` has no contract of its own. It is characterised by
  `Merge.MarkersMeaning`.
- Deleting `:desc` from the table entries while declaring options changes
  nothing the model observes, so it is not modelled.
- `suss` is not modelled: the Solr server object, javabin and the queue
  sizes.
- Logback is not modelled. `masterLogger`'s effect is the `LoggerPlan`
  value.
- The clock is not modelled. The start time is the `stamp` parameter.
- MARC4J4R and `GZIPInputStream` are not modelled. The reader is the
  `ReaderPlan` value (source, format, encoding, decompress).
- `Logging.LoggerSetup`: a log level that is not a string is an error. A
  log level is not checked against the valid list here.
- `pretty_print`, `HELPTEXT` and the logging of messages are not modelled.

## Findings

| source | as written | input that shows it | evidently intended | confidence | as-written member | corrected member |
|---|---|---|---|---|---|---|
| lib/marc2solr.rb:361 | The URL is joined with `String#+`. The port option is declared `:type => :int`, so the parsed port is an Integer and `'…:' + port` raises TypeError | machine "solr.example.org", port 8983 (Integer), solrpath "solr/biblio" | http://solr.example.org:8983/solr/biblio, with the port written in decimal | not executed | Solr.IntegerPortExample | Solr.ExampleFromStore |
| lib/marc2solr.rb:308 | `break if arg.is_a? IO or arg.is_a? StringIO` is meant to accept a stream as it is. `break` outside a loop or block raises LocalJumpError. STDOUT, STDERR and a file opened for writing fail earlier at line 291; a StringIO and STDIN get past it to the `break` | debugfile set to a StringIO whose text is not "none", or to STDIN | the stream is stored unchanged and returned | not executed | Setter.StreamReachesBreak | Setter.StreamKept |
