/**
 * MARC2Solr::Conf#sussURL: the Solr update URL built from the machine,
 * port and solrpath options.
 */
module Solr {
  import opened Wrappers
  import opened Values
  import opened Schema
  import opened Setter

  /** Why no URL could be built. */
  datatype UrlError =
    | Missing(key: Key)                 // the option is unset, nil or false
    | NotAString(key: Key, value: Value)  // the value cannot be joined to a string

  /** `self[:x]`: the stored value, nil for an option never set. */
  function Lookup(store: Store, k: Key): Value
  {
    if k in store then store[k] else Nil
  }

  /**
   * `gsub(/^\//, '')`: a slash that starts a line is removed, on every
   * line of the path.
   */
  function StripLeadingSlashes(p: string, atLineStart: bool): (r: string)
    ensures |r| <= |p|
    ensures '\n' !in p ==> r == if atLineStart && p != [] && p[0] == '/' then p[1..] else p
    decreases |p|
  {
    if p == [] then []
    else if atLineStart && p[0] == '/' then StripLeadingSlashes(p[1..], false)
    else [p[0]] + StripLeadingSlashes(p[1..], p[0] == '\n')
  }

  /** The path part of the URL: the solrpath without its leading slash. */
  function PathPart(p: string): string
  {
    StripLeadingSlashes(p, true)
  }

  /** The URL from its three parts. */
  function Url(machine: string, port: string, path: string): string
  {
    "http://" + machine + ":" + port + "/" + PathPart(path)
  }

  /**
   * The method as written: each of the three options must be set, and the
   * URL is joined with String#+, which accepts only strings. The port
   * option's command-line type is an integer, so its value from the
   * command line is always refused here.
   */
  function SussUrlAsWritten(store: Store): Result<string, UrlError>
  {
    var machine, port, path := Lookup(store, Machine), Lookup(store, Port), Lookup(store, Solrpath);
    if !Truthy(machine) then Failure(Missing(Machine))
    else if !Truthy(port) then Failure(Missing(Port))
    else if !Truthy(path) then Failure(Missing(Solrpath))
    else if !machine.Str? then Failure(NotAString(Machine, machine))
    else if !port.Str? then Failure(NotAString(Port, port))
    else if !path.Str? then Failure(NotAString(Solrpath, path))
    else Success(Url(machine.s, port.s, path.s))
  }

  /** A digit character's value. */
  function DigitValue(c: char): nat
  {
    if '0' <= c <= '9' then (c - '0') as nat else 0
  }

  /** The character for a digit. */
  function DigitChar(d: nat): (c: char)
    requires d < 10
    ensures '0' <= c <= '9' && DigitValue(c) == d
  {
    ('0' as int + d) as char
  }

  /** The decimal digits of a natural number, most significant first, with no leading zero. */
  function Digits(n: nat): (r: string)
    ensures |r| >= 1 && (r[0] == '0' ==> n == 0)
    ensures forall i :: 0 <= i < |r| ==> '0' <= r[i] <= '9'
    decreases n
  {
    if n < 10 then [DigitChar(n)] else Digits(n / 10) + [DigitChar(n % 10)]
  }

  /** The number a string of decimal digits denotes. */
  function Number(s: string): nat
    decreases |s|
  {
    if s == [] then 0 else 10 * Number(s[..|s| - 1]) + DigitValue(s[|s| - 1])
  }

  /** Reading back the digits gives the number. */
  lemma {:induction false} NumberOfDigits(n: nat)
    ensures Number(Digits(n)) == n
    decreases n
  {
    if n >= 10 {
      NumberOfDigits(n / 10);
      var d := Digits(n / 10) + [DigitChar(n % 10)];
      assert d[..|d| - 1] == Digits(n / 10);
    }
  }

  /** `Integer#to_s`. */
  function Decimal(i: int): string
  {
    if i < 0 then "-" + Digits(-i) else Digits(i)
  }

  /** The port as it appears in the URL: a string as it is, an integer in decimal. */
  function PortText(v: Value): Option<string>
  {
    match v
    case Str(s) => Some(s)
    case Int(i) => Some(Decimal(i))
    case _ => None
  }

  /** The method with the port converted to text, as an integer port evidently should be. */
  function SussUrl(store: Store): Result<string, UrlError>
  {
    var machine, port, path := Lookup(store, Machine), Lookup(store, Port), Lookup(store, Solrpath);
    if !Truthy(machine) then Failure(Missing(Machine))
    else if !Truthy(port) then Failure(Missing(Port))
    else if !Truthy(path) then Failure(Missing(Solrpath))
    else if !machine.Str? then Failure(NotAString(Machine, machine))
    else if PortText(port).None? then Failure(NotAString(Port, port))
    else if !path.Str? then Failure(NotAString(Solrpath, path))
    else Success(Url(machine.s, PortText(port).value, path.s))
  }

  /** The first option that is unset, nil or false is reported, in the order machine, port, solrpath. */
  lemma MissingReported(store: Store)
    ensures SussUrl(store) == Failure(Missing(Machine)) <==> !Truthy(Lookup(store, Machine))
    ensures SussUrl(store) == Failure(Missing(Port)) <==>
      Truthy(Lookup(store, Machine)) && !Truthy(Lookup(store, Port))
    ensures SussUrl(store) == Failure(Missing(Solrpath)) <==>
      Truthy(Lookup(store, Machine)) && Truthy(Lookup(store, Port)) && !Truthy(Lookup(store, Solrpath))
  {
  }

  /** The option holds a value that can stand in the URL. */
  predicate Usable(store: Store, k: Key)
  {
    var v := Lookup(store, k);
    Truthy(v) && (if k == Port then PortText(v).Some? else v.Str?)
  }

  /**
   * A URL is built exactly when the three options hold text (the port may
   * be an integer), and then it reads http://machine:port/path with the
   * path's leading slash removed.
   */
  lemma UrlShape(store: Store)
    ensures SussUrl(store).Success? <==> Usable(store, Machine) && Usable(store, Port) && Usable(store, Solrpath)
    ensures SussUrl(store).Success? ==>
      var u, m, p := SussUrl(store).value, Lookup(store, Machine).s, PortText(Lookup(store, Port)).value;
      && u[..7] == "http://"
      && u[7..7 + |m|] == m
      && u[7 + |m|] == ':'
      && u[8 + |m|..8 + |m| + |p|] == p
      && u[8 + |m| + |p|] == '/'
      && u[9 + |m| + |p|..] == PathPart(Lookup(store, Solrpath).s)
  {
    UrlBuilt(store);
    if Usable(store, Machine) && Usable(store, Port) && Usable(store, Solrpath) {
      UrlOfParts(store);
      UrlLayout(Lookup(store, Machine).s, PortText(Lookup(store, Port)).value, Lookup(store, Solrpath).s);
    }
  }

  /** A URL is built exactly when the three options hold text (the port may be an integer). */
  lemma UrlBuilt(store: Store)
    ensures SussUrl(store).Success? <==> Usable(store, Machine) && Usable(store, Port) && Usable(store, Solrpath)
  {
  }

  /** The URL reads scheme, machine, colon, port, slash and path, in that order. */
  lemma UrlLayout(m: string, p: string, path: string)
    ensures var u := Url(m, p, path);
      && |u| == 9 + |m| + |p| + |PathPart(path)|
      && u[..7] == "http://"
      && u[7..7 + |m|] == m
      && u[7 + |m|] == ':'
      && u[8 + |m|..8 + |m| + |p|] == p
      && u[8 + |m| + |p|] == '/'
      && u[9 + |m| + |p|..] == PathPart(path)
  {
    var u, q := Url(m, p, path), PathPart(path);
    var a := "http://" + m;
    var b := a + ":" + p;
    assert u == b + "/" + q;
    assert u[..7] == a[..7];
    assert u[7..7 + |m|] == a[7..];
    assert u[8 + |m|..8 + |m| + |p|] == b[8 + |m|..];
  }

  /** Where the method as written builds a URL, the corrected one builds the same URL. */
  lemma CorrectionKeepsStringPorts(store: Store)
    requires SussUrlAsWritten(store).Success?
    ensures SussUrl(store) == SussUrlAsWritten(store)
  {
  }

  /** The two differ only for an integer port: the method as written refuses it. */
  lemma IntegerPortRefused(store: Store)
    requires Usable(store, Machine) && Usable(store, Solrpath) && Lookup(store, Port).Int?
    ensures SussUrlAsWritten(store) == Failure(NotAString(Port, Lookup(store, Port)))
    ensures SussUrl(store).Success?
  {
  }

  /** A store whose three options hold text gives the URL of their texts. */
  lemma UrlOfParts(store: Store)
    requires Usable(store, Machine) && Usable(store, Port) && Usable(store, Solrpath)
    ensures SussUrl(store) ==
      Success(Url(Lookup(store, Machine).s, PortText(Lookup(store, Port)).value, Lookup(store, Solrpath).s))
  {
  }

  /** A one-line path that does not start with a slash is kept as it is. */
  lemma PlainPathKept(p: string)
    requires '\n' !in p && (p == [] || p[0] != '/')
    ensures PathPart(p) == p
  {
  }

  /** The example's path has nothing to strip. */
  lemma ExamplePath(p: string)
    requires p == "solr/biblio"
    ensures PathPart(p) == p
  {
    assert forall i :: 0 <= i < |p| ==> p[i] != '\n';
    PlainPathKept(p);
  }

  /** The example's URL, joined. */
  lemma ExampleJoin(path: string)
    requires path == "solr/biblio"
    ensures "http://" + "solr.example.org" + ":" + "8983" + "/" + path == "http://solr.example.org:8983/solr/biblio"
  {
  }

  /** The example's port in decimal. */
  lemma ExamplePort()
    ensures Decimal(8983) == "8983"
  {
    assert Digits(8) == "8";
    assert Digits(89) == "89";
    assert Digits(898) == "898";
  }

  /** The example's URL. */
  lemma ExampleUrl()
    ensures Url("solr.example.org", "8983", "solr/biblio") == "http://solr.example.org:8983/solr/biblio"
  {
    ExamplePath("solr/biblio");
    ExampleJoin(PathPart("solr/biblio"));
  }

  /** The corrected method on a store holding the example's three values. */
  lemma ExampleFromStore(store: Store)
    requires Lookup(store, Machine) == Str("solr.example.org")
    requires Lookup(store, Port) == Int(8983)
    requires Lookup(store, Solrpath) == Str("solr/biblio")
    ensures SussUrl(store) == Success("http://solr.example.org:8983/solr/biblio")
  {
    UrlOfParts(store);
    ExamplePort();
    ExampleUrl();
  }

  /**
   * The port as the option parser delivers it, an integer: the method as
   * written fails where the corrected one gives the intended URL.
   */
  lemma IntegerPortExample()
    ensures var store := map[Machine := Str("solr.example.org"), Port := Int(8983), Solrpath := Str("solr/biblio")];
      SussUrlAsWritten(store) == Failure(NotAString(Port, Int(8983)))
      && SussUrl(store) == Success("http://solr.example.org:8983/solr/biblio")
  {
    var store := map[Machine := Str("solr.example.org"), Port := Int(8983), Solrpath := Str("solr/biblio")];
    ExampleFromStore(store);
  }
}
