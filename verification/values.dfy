/**
 * The Ruby values that the configuration store of MARC2Solr::Conf holds:
 * flags, numbers, strings, arrays (for repeatable options) and the output
 * streams that file-valued options are turned into.
 */
module Values {

  /** The three standard streams STDIN, STDOUT and STDERR. */
  datatype Stream = Stdin | Stdout | Stderr

  datatype Value =
    | Nil                      // Ruby nil, also what the "none" sentinel stores
    | Bool(b: bool)
    | Int(i: int)
    | Str(s: string)
    | List(items: seq<Value>)  // a Ruby Array
    | Std(stream: Stream)      // one of the standard stream objects
    | Handle(path: string)     // a File opened for writing on this path
    | Buffer(text: string)     // a StringIO holding this text

  /** Ruby truthiness: everything except nil and false. */
  predicate Truthy(v: Value)
  {
    v != Nil && v != Bool(false)
  }

  /** An IO object (what `arg.is_a? IO` accepts). */
  predicate IsIO(v: Value)
  {
    v.Std? || v.Handle?
  }

  /** A stream of either kind (what `arg.is_a? IO or arg.is_a? StringIO` accepts). */
  predicate IsStream(v: Value)
  {
    IsIO(v) || v.Buffer?
  }

  /** No element of the array is itself an array. */
  predicate Flat(xs: seq<Value>)
  {
    forall i :: 0 <= i < |xs| ==> !xs[i].List?
  }

  /** Ruby's `Array#flatten`: every nested array is replaced by its elements, recursively. */
  function Flatten(xs: seq<Value>): (r: seq<Value>)
    ensures Flat(r)
    decreases xs
  {
    if xs == [] then []
    else
      var head := if xs[0].List? then Flatten(xs[0].items) else [xs[0]];
      head + Flatten(xs[1..])
  }

  /** Flattening distributes over concatenation, so appending keeps the earlier entries in front and in order. */
  lemma {:induction false} FlattenAppend(a: seq<Value>, b: seq<Value>)
    ensures Flatten(a + b) == Flatten(a) + Flatten(b)
    decreases a
  {
    if a == [] {
      assert a + b == b;
    } else {
      assert (a + b)[0] == a[0];
      assert (a + b)[1..] == a[1..] + b;
      FlattenAppend(a[1..], b);
    }
  }

  /** An array without nested arrays is left as it is by flattening. */
  lemma {:induction false} FlattenFlat(xs: seq<Value>)
    requires Flat(xs)
    ensures Flatten(xs) == xs
    decreases xs
  {
    if xs != [] {
      assert Flat(xs[1..]);
      FlattenFlat(xs[1..]);
    }
  }

  /** A value that is not an array is kept as it is. */
  lemma FlattenLeaf(x: Value)
    requires !x.List?
    ensures Flatten([x]) == [x]
  {
    assert [x][1..] == [];
  }

  /** A nested array is replaced by its own elements, flattened: nothing in it is dropped. */
  lemma FlattenNested(ys: seq<Value>)
    ensures Flatten([List(ys)]) == Flatten(ys)
  {
    assert [List(ys)][1..] == [];
  }

  /** Flattening twice is flattening once. */
  lemma FlattenIdempotent(xs: seq<Value>)
    ensures Flatten(Flatten(xs)) == Flatten(xs)
  {
    FlattenFlat(Flatten(xs));
  }

  /** Ruby 1.8's `String#downcase` on one character: ASCII letters only. */
  function LowerChar(c: char): char
  {
    if 'A' <= c <= 'Z' then (c as int - 'A' as int + 'a' as int) as char else c
  }

  /** Ruby 1.8's `String#downcase`. */
  function Lower(s: string): (r: string)
    ensures |r| == |s|
    ensures forall i :: 0 <= i < |s| ==> r[i] == LowerChar(s[i])
    ensures forall i :: 0 <= i < |r| ==> !('A' <= r[i] <= 'Z')
  {
    seq(|s|, i requires 0 <= i < |s| => LowerChar(s[i]))
  }

  /** Lower-casing is idempotent, so an already lower-cased token is its own normal form. */
  lemma LowerIdempotent(s: string)
    ensures Lower(Lower(s)) == Lower(s)
  {
    assert forall i :: 0 <= i < |s| ==> LowerChar(LowerChar(s[i])) == LowerChar(s[i]);
  }

  /** A string with no upper-case letter is its own lower-case form. */
  lemma LowerKeepsLowercase(s: string)
    requires forall i :: 0 <= i < |s| ==> !('A' <= s[i] <= 'Z')
    ensures Lower(s) == s
  {
  }

  /** Substring test, as the regular expressions /xml/, /seq/, /aleph/ use it. */
  predicate Contains(s: string, t: string)
    decreases |s|
  {
    t <= s || (s != [] && Contains(s[1..], t))
  }

  /** A string shorter than t does not contain it. */
  lemma {:induction false} ShortLacks(s: string, t: string)
    requires |s| < |t|
    ensures !Contains(s, t)
    decreases |s|
  {
    if s != [] {
      ShortLacks(s[1..], t);
    }
  }
}
