/**
 * The decisions of MARC2Solr::Conf#reader: which record format, character
 * encoding and decompression to use for an input file, sniffed from the
 * file name when the configured format is "bestguess".
 */
module Reader {
  import opened Wrappers
  import opened Values
  import opened Schema
  import opened Setter
  import opened Solr

  // ---------------------------------------------------------------------------
  // File names

  /** The name without trailing slashes; a name made only of slashes keeps one. */
  function StripTrailingSlashes(s: string): (r: string)
    ensures |r| <= |s| && r == s[..|r|]
    ensures s != [] ==> r != []
    decreases |s|
  {
    if |s| > 1 && s[|s| - 1] == '/' then StripTrailingSlashes(s[..|s| - 1]) else s
  }

  /** The part after the last slash. */
  function AfterLastSlash(s: string): (r: string)
    ensures '/' !in r
    ensures |r| <= |s| && r == s[|s| - |r|..]
    decreases |s|
  {
    if s == [] || s[|s| - 1] == '/' then [] else AfterLastSlash(s[..|s| - 1]) + [s[|s| - 1]]
  }

  /** `File.basename`: the last component of a path. */
  function Basename(s: string): (r: string)
    ensures r == "/" || '/' !in r
  {
    var t := StripTrailingSlashes(s);
    if t == "/" then "/" else AfterLastSlash(t)
  }

  /** What follows the last slash of "d/b", for a b with no slash, is b. */
  lemma {:induction false} SuffixAfterSlash(d: string, b: string)
    requires '/' !in b
    ensures AfterLastSlash(d + "/" + b) == b
    decreases |b|
  {
    var s := d + "/" + b;
    if b == [] {
      assert s[|s| - 1] == '/';
    } else {
      var b', c := b[..|b| - 1], b[|b| - 1];
      assert b == b' + [c];
      assert c in b;
      assert '/' !in b' by {
        forall i | 0 <= i < |b'| ensures b'[i] != '/' {
          assert b'[i] == b[i];
        }
      }
      assert s == (d + "/" + b') + [c];
      SuffixAfterSlash(d, b');
      assert AfterLastSlash(s) == AfterLastSlash(d + "/" + b') + [c];
    }
  }

  /** The base name of a path "d/b" whose last component b is not empty is b. */
  lemma BasenameOfPath(d: string, b: string)
    requires '/' !in b && b != ""
    ensures Basename(d + "/" + b) == b
  {
    var s := d + "/" + b;
    assert s[|s| - 1] == b[|b| - 1];
    assert StripTrailingSlashes(s) == s;
    SuffixAfterSlash(d, b);
    assert |s| >= 2;
  }

  /** A name with no slash is its own base name. */
  lemma {:induction false} BasenameOfPlainName(s: string)
    requires '/' !in s
    ensures Basename(s) == s
  {
    PlainSuffix(s);
  }

  /** AfterLastSlash keeps a name with no slash whole. */
  lemma {:induction false} PlainSuffix(s: string)
    requires '/' !in s
    ensures AfterLastSlash(s) == s
    decreases |s|
  {
    if s != [] {
      assert s == s[..|s| - 1] + [s[|s| - 1]];
      PlainSuffix(s[..|s| - 1]);
    }
  }

  /** The fields between dots, every one kept, empty ones included. */
  function SplitDots(s: string): (r: seq<string>)
    ensures |r| >= 1
    ensures forall i :: 0 <= i < |r| ==> '.' !in r[i]
    decreases |s|
  {
    if s == [] then [""]
    else
      var init := SplitDots(s[..|s| - 1]);
      var c := s[|s| - 1];
      if c == '.' then init + [""]
      else init[..|init| - 1] + [init[|init| - 1] + [c]]
  }

  /** The fields joined back with dots. */
  function JoinDots(fs: seq<string>): string
    requires |fs| >= 1
    decreases |fs|
  {
    if |fs| == 1 then fs[0] else JoinDots(fs[..|fs| - 1]) + "." + fs[|fs| - 1]
  }

  /** A character added to the last field adds it to the joined name. */
  lemma JoinExtendsLast(fs: seq<string>, c: char)
    requires |fs| >= 1
    ensures JoinDots(fs[..|fs| - 1] + [fs[|fs| - 1] + [c]]) == JoinDots(fs) + [c]
  {
    var g := fs[..|fs| - 1] + [fs[|fs| - 1] + [c]];
    if |fs| > 1 {
      assert g[..|g| - 1] == fs[..|fs| - 1];
      var a, b := JoinDots(fs[..|fs| - 1]) + ".", fs[|fs| - 1];
      assert a + (b + [c]) == (a + b) + [c];
    }
  }

  /** Joining the fields with dots gives back the name. */
  lemma {:induction false} SplitJoin(s: string)
    ensures JoinDots(SplitDots(s)) == s
    decreases |s|
  {
    if s != [] {
      var init := SplitDots(s[..|s| - 1]);
      SplitJoin(s[..|s| - 1]);
      var c := s[|s| - 1];
      assert s == s[..|s| - 1] + [c];
      if c == '.' {
        assert (init + [""])[..|init|] == init;
      } else {
        JoinExtendsLast(init, c);
      }
    }
  }

  /** A name with no dot is one field. */
  lemma {:induction false} SplitNoDot(b: string)
    requires '.' !in b
    ensures SplitDots(b) == [b]
    decreases |b|
  {
    if b != [] {
      SplitNoDot(b[..|b| - 1]);
      assert b == b[..|b| - 1] + [b[|b| - 1]];
    }
  }

  /** A dot and a dot-free field at the end add that field. */
  lemma {:induction false} SplitAddsField(a: string, b: string)
    requires '.' !in b
    ensures SplitDots(a + "." + b) == SplitDots(a) + [b]
    decreases |b|
  {
    if b == [] {
      assert a + "." + b == a + ".";
      assert (a + ".")[..|a|] == a;
    } else {
      var b' := b[..|b| - 1];
      SplitAddsField(a, b');
      assert (a + "." + b)[..|a + "." + b| - 1] == a + "." + b';
      assert b == b' + [b[|b| - 1]];
    }
  }

  /** The fields without the empty ones at the end. */
  function DropTrailingEmpty(fs: seq<string>): (r: seq<string>)
    ensures |r| <= |fs| && r == fs[..|r|]
    ensures r != [] ==> r[|r| - 1] != ""
    ensures forall i :: |r| <= i < |fs| ==> fs[i] == ""
    decreases |fs|
  {
    if fs != [] && fs[|fs| - 1] == "" then DropTrailingEmpty(fs[..|fs| - 1]) else fs
  }

  /** `split(/\./)`: the fields between dots, with empty fields at the end dropped. */
  function Fields(s: string): seq<string>
  {
    DropTrailingEmpty(SplitDots(s))
  }

  /**
   * `filename =~ /\.(.+)$/`: some dot is followed by at least one
   * character on the same line.
   */
  predicate HasExtension(s: string)
    decreases |s|
  {
    |s| >= 2 && ((s[0] == '.' && s[1] != '\n') || HasExtension(s[1..]))
  }

  // ---------------------------------------------------------------------------
  // The decision

  /** Where records are read from. */
  datatype Source = StandardInput | NamedFile(path: string)

  /** What the reader is built with: source, format, encoding (None lets the parser guess) and decompression. */
  datatype ReaderPlan = ReaderPlan(source: Source, format: string, encoding: Option<string>, gunzip: bool)

  /** Why no plan could be made. */
  datatype ReaderError =
    | NotText(key: Key, value: Value)  // `downcase` on an option value that is not a string
    | NoField                           // `downcase` on the missing field of a name with too few dots

  /** The format for a sniffed extension: "xml" anywhere, then "seq" or "aleph" anywhere, else the fallback. */
  function FormatFor(ext: string): (f: string)
    ensures f == "marcxml" <==> Contains(ext, "xml")
    ensures f == "alephsequential" <==> !Contains(ext, "xml") && (Contains(ext, "seq") || Contains(ext, "aleph"))
    ensures f == "permissivemarc" <==> !Contains(ext, "xml") && !Contains(ext, "seq") && !Contains(ext, "aleph")
  {
    if Contains(ext, "xml") then "marcxml"
    else if Contains(ext, "seq") || Contains(ext, "aleph") then "alephsequential"
    else "permissivemarc"
  }

  /** The sniffed format and whether the name says the file is gzipped. */
  function Sniff(filename: string): Result<(string, bool), ReaderError>
  {
    if !HasExtension(filename) then Success(("permissivemarc", false))
    else
      var fs := Fields(Basename(filename));
      if fs == [] then Failure(NoField)
      else if Lower(fs[|fs| - 1]) != "gz" then Success((FormatFor(Lower(fs[|fs| - 1])), false))
      else if |fs| < 2 then Failure(NoField)
      else Success((FormatFor(Lower(fs[|fs| - 2])), true))
  }

  /** The reader's parameters for a file name under the resolved options. */
  function Plan(store: Store, filename: string): Result<ReaderPlan, ReaderError>
  {
    var marctype, encoding := Lookup(store, Marctype), Lookup(store, Encoding);
    if !marctype.Str? then Failure(NotText(Marctype, marctype))
    else if !encoding.Str? then Failure(NotText(Encoding, encoding))
    else
      var configured, enc := Lower(marctype.s), Lower(encoding.s);
      var sniffed := if configured == "bestguess" then Sniff(filename) else Success((configured, false));
      match sniffed
      case Failure(e) => Failure(e)
      case Success((format, gz)) =>
        Success(ReaderPlan(
          if filename == "STDIN" then StandardInput else NamedFile(filename),
          format,
          if enc == "bestguess" then None else Some(enc),
          gz || Truthy(Lookup(store, Gzipped))))
  }

  // ---------------------------------------------------------------------------
  // Properties

  /** A configured format other than bestguess is used as configured: nothing is sniffed. */
  lemma ConfiguredFormatKept(store: Store, filename: string)
    requires Lookup(store, Marctype).Str? && Lookup(store, Encoding).Str?
    requires Lower(Lookup(store, Marctype).s) != "bestguess"
    ensures Plan(store, filename).Success?
    ensures Plan(store, filename).value.format == Lower(Lookup(store, Marctype).s)
    ensures Plan(store, filename).value.gunzip == Truthy(Lookup(store, Gzipped))
  {
  }

  /** The options must hold text: a format or encoding that is not a string is an error. */
  lemma OptionsMustBeText(store: Store, filename: string)
    ensures !Lookup(store, Marctype).Str? ==> Plan(store, filename) == Failure(NotText(Marctype, Lookup(store, Marctype)))
    ensures Lookup(store, Marctype).Str? && !Lookup(store, Encoding).Str? ==>
      Plan(store, filename) == Failure(NotText(Encoding, Lookup(store, Encoding)))
  {
  }

  /** A name with no extension is read as permissive binary MARC, decompressed only when configured. */
  lemma NoExtensionFallsBack(store: Store, filename: string)
    requires Lookup(store, Marctype).Str? && Lower(Lookup(store, Marctype).s) == "bestguess"
    requires Lookup(store, Encoding).Str?
    requires !HasExtension(filename)
    ensures Plan(store, filename).Success?
    ensures Plan(store, filename).value.format == "permissivemarc"
    ensures Plan(store, filename).value.gunzip == Truthy(Lookup(store, Gzipped))
  {
  }

  /** A name whose last field is "gz" (any case) is decompressed, and its format comes from the field before. */
  lemma GzipSniffed(filename: string)
    requires HasExtension(filename)
    requires var fs := Fields(Basename(filename)); |fs| >= 2 && Lower(fs[|fs| - 1]) == "gz"
    ensures var fs := Fields(Basename(filename));
      Sniff(filename) == Success((FormatFor(Lower(fs[|fs| - 2])), true))
  {
  }

  /** Otherwise the format comes from the last field, and the name says nothing about compression. */
  lemma LastFieldSniffed(filename: string)
    requires HasExtension(filename)
    requires var fs := Fields(Basename(filename)); |fs| >= 1 && Lower(fs[|fs| - 1]) != "gz"
    ensures var fs := Fields(Basename(filename));
      Sniff(filename) == Success((FormatFor(Lower(fs[|fs| - 1])), false))
  {
  }

  /** The reader decompresses exactly when the name ends in .gz (when sniffing) or the gzipped option is set. */
  lemma GunzipIsSniffedOrConfigured(store: Store, filename: string)
    requires Plan(store, filename).Success?
    ensures Plan(store, filename).value.gunzip <==>
      Truthy(Lookup(store, Gzipped)) ||
      (Lower(Lookup(store, Marctype).s) == "bestguess" && Sniff(filename).value.1)
  {
  }

  /** The encoding is left to the parser exactly when it is bestguess, and is otherwise the lower-cased option. */
  lemma EncodingChoice(store: Store, filename: string)
    requires Plan(store, filename).Success?
    ensures var e := Lower(Lookup(store, Encoding).s);
      && (Plan(store, filename).value.encoding.None? <==> e == "bestguess")
      && (Plan(store, filename).value.encoding.Some? ==> Plan(store, filename).value.encoding.value == e)
  {
  }

  /** The name STDIN, and only that name, reads standard input. */
  lemma StdinSource(store: Store, filename: string)
    requires Plan(store, filename).Success?
    ensures Plan(store, filename).value.source == StandardInput <==> filename == "STDIN"
    ensures filename != "STDIN" ==> Plan(store, filename).value.source == NamedFile(filename)
  {
  }

  /** A dot followed by a character other than a line break makes an extension. */
  lemma {:induction false} DotMakesExtension(s: string, i: nat)
    requires i + 1 < |s| && s[i] == '.' && s[i + 1] != '\n'
    ensures HasExtension(s)
    decreases i
  {
    if i > 0 {
      DotMakesExtension(s[1..], i - 1);
    }
  }

  /** A name with no dot has no extension. */
  lemma {:induction false} NoDotNoExtension(s: string)
    requires '.' !in s
    ensures !HasExtension(s)
    decreases |s|
  {
    if |s| >= 2 {
      NoDotNoExtension(s[1..]);
    }
  }

  /** When sniffing, the plan carries the sniffed format, and decompresses if the name or the option says so. */
  lemma PlanFromSniff(store: Store, filename: string)
    requires Lookup(store, Marctype).Str? && Lower(Lookup(store, Marctype).s) == "bestguess"
    requires Lookup(store, Encoding).Str? && Sniff(filename).Success?
    ensures Plan(store, filename).Success?
    ensures Plan(store, filename).value.format == Sniff(filename).value.0
    ensures Plan(store, filename).value.gunzip == (Sniff(filename).value.1 || Truthy(Lookup(store, Gzipped)))
  {
  }

  /** The fields of a plain name with one dot. */
  lemma TwoFields(name: string, a: string, b: string)
    requires name == a + "." + b && '.' !in a && '.' !in b && b != ""
    ensures Fields(name) == [a, b]
  {
    SplitNoDot(a);
    SplitAddsField(a, b);
  }

  /** The fields of a plain name with two dots. */
  lemma ThreeFields(name: string, a: string, b: string, c: string)
    requires name == a + "." + b + "." + c && '.' !in a && '.' !in b && '.' !in c && c != ""
    ensures Fields(name) == [a, b, c]
  {
    SplitNoDot(a);
    SplitAddsField(a, b);
    SplitAddsField(a + "." + b, c);
  }

  /** For a name with no slash, the last field decides, unless it is "gz". */
  lemma SniffLastField(name: string, fs: seq<string>)
    requires HasExtension(name) && '/' !in name && Fields(name) == fs
    requires |fs| >= 1 && Lower(fs[|fs| - 1]) != "gz"
    ensures Sniff(name) == Success((FormatFor(Lower(fs[|fs| - 1])), false))
  {
    BasenameOfPlainName(name);
  }

  /** For a name with no slash ending in "gz", the field before decides, and the file is decompressed. */
  lemma SniffBeforeGz(name: string, fs: seq<string>)
    requires HasExtension(name) && '/' !in name && Fields(name) == fs
    requires |fs| >= 2 && Lower(fs[|fs| - 1]) == "gz"
    ensures Sniff(name) == Success((FormatFor(Lower(fs[|fs| - 2])), true))
  {
    BasenameOfPlainName(name);
    GzipSniffed(name);
  }

  /** "a.x" with no slash is read in the format x names, not decompressed (unless x is "gz"). */
  lemma SniffOneDot(name: string, a: string, x: string)
    requires name == a + "." + x && '/' !in name && '.' !in a && '.' !in x
    requires x != "" && x[0] != '\n' && Lower(x) != "gz"
    ensures Sniff(name) == Success((FormatFor(Lower(x)), false))
  {
    TwoFields(name, a, x);
    DotMakesExtension(name, |a|);
    SniffLastField(name, [a, x]);
  }

  /** "a.x.gz" with no slash is decompressed and read in the format x names. */
  lemma SniffGzipped(name: string, a: string, x: string, gz: string)
    requires name == a + "." + x + "." + gz && '/' !in name && '.' !in a && '.' !in x && '.' !in gz
    requires x != "" && x[0] != '\n' && Lower(gz) == "gz"
    ensures Sniff(name) == Success((FormatFor(Lower(x)), true))
  {
    ThreeFields(name, a, x, gz);
    DotMakesExtension(name, |a|);
    SniffBeforeGz(name, [a, x, gz]);
  }

  /** A lower-case field made of three letters, none of which starts any of the format words, is the fallback. */
  lemma ThreeLetterFallback(e: string)
    requires |e| == 3 && e[0] != 'x' && e[0] != 's' && e[0] != 'a'
    ensures FormatFor(e) == "permissivemarc"
  {
    ShortLacks(e[1..], "xml");
    ShortLacks(e[1..], "seq");
    ShortLacks(e[1..], "aleph");
  }

  /** A field that reads "seq" selects Aleph sequential. */
  lemma SeqFormat(e: string)
    requires e == "seq"
    ensures FormatFor(e) == "alephsequential"
  {
    assert e[0] == 's' && "seq" <= e;
    ShortLacks(e[1..], "xml");
  }

  /** "bib.xml" is read as MARC-XML, not decompressed. */
  lemma XmlExample(name: string)
    requires name == "bib.xml"
    ensures Sniff(name) == Success(("marcxml", false))
  {
    var a, x := name[..3], name[4..];
    assert a == "bib" && x == "xml";
    assert name == a + "." + x;
    LowerKeepsLowercase(x);
    SniffOneDot(name, a, x);
  }

  /** "bib.seq" is read as Aleph sequential, not decompressed. */
  lemma SeqExample(name: string)
    requires name == "bib.seq"
    ensures Sniff(name) == Success(("alephsequential", false))
  {
    var a, x := name[..3], name[4..];
    assert a == "bib" && x == "seq";
    assert name == a + "." + x;
    LowerKeepsLowercase(x);
    SeqFormat(x);
    SniffOneDot(name, a, x);
  }

  /** "bib.mrc.gz" is decompressed, and read by the fallback for its "mrc" field. */
  lemma GzExample(name: string)
    requires name == "bib.mrc.gz"
    ensures Sniff(name) == Success(("permissivemarc", true))
  {
    var a, x, gz := name[..3], name[4..7], name[8..];
    assert a == "bib" && x == "mrc" && gz == "gz";
    assert name == a + "." + x + "." + gz;
    LowerKeepsLowercase(x);
    LowerKeepsLowercase(gz);
    ThreeLetterFallback(x);
    SniffGzipped(name, a, x, gz);
  }

  /** "catalog", with no extension, is read by the fallback and decompressed only when configured. */
  lemma BareNameExample(store: Store, name: string)
    requires name == "catalog"
    requires Lookup(store, Marctype).Str? && Lower(Lookup(store, Marctype).s) == "bestguess"
    requires Lookup(store, Encoding).Str?
    ensures Plan(store, name).Success?
    ensures Plan(store, name).value == ReaderPlan(NamedFile("catalog"), "permissivemarc",
      Plan(store, name).value.encoding, Truthy(Lookup(store, Gzipped)))
  {
    NoDotNoExtension(name);
  }
}
