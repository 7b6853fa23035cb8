/**
 * Where substitute values come from: the arguments a resolver is called with,
 * how the first of them selects the source, and how a key is looked up in it.
 * Values arrive already converted to strings; `None` is `undefined`.
 */
module Substitutes {
  import opened Options
  import opened Keys

  /** A substitution source: an argument list indexed "0", "1", ..., or one object's own keys. */
  datatype Source =
    | Positional(values: seq<Option<string>>)
    | Named(fields: map<string, Option<string>>)

  /**
   * `subs[item]`: an array answers only canonical in-range index strings, an
   * object only its own keys; everything else reads as `undefined`.
   */
  function Lookup(src: Source, key: string): (r: Option<string>)
    ensures src.Positional? && !IsIndexKey(key) ==> r.None?
    ensures src.Named? && key in src.fields ==> r == src.fields[key]
    ensures src.Named? && key !in src.fields ==> r.None?
  {
    match src
    case Positional(values) =>
      (match ParseIndex(key)
       case Some(n) =>
         if n < |values| then values[n] else None
       case None => None)
    case Named(fields) =>
      if key in fields then fields[key] else None
  }

  /** A positional source resolves only the decimal forms of its in-range indices. */
  lemma LookupOnlyIndices(values: seq<Option<string>>, key: string)
    requires Lookup(Positional(values), key).Some?
    ensures exists n: nat :: n < |values| && Decimal(n) == key && Lookup(Positional(values), key) == values[n]
  {
    ParseIndexIsDecimal(key);
  }

  /** Positional key `Decimal(n)` reads the n-th value, `undefined` included. */
  lemma LookupIndex(values: seq<Option<string>>, n: nat)
    requires n < |values|
    ensures Lookup(Positional(values), Decimal(n)) == values[n]
  {
    DecimalParses(n);
  }

  /** Positional key `Decimal(n)` past the last value reads as `undefined`. */
  lemma LookupOutOfRange(values: seq<Option<string>>, n: nat)
    requires n >= |values|
    ensures Lookup(Positional(values), Decimal(n)).None?
  {
    DecimalParses(n);
  }

  /**
   * One argument of a resolver call. `typeof` is "object" exactly for `Null`,
   * `ArrayObject` and `PlainObject`. `text` is the argument's string form (the
   * runtime's ToString), which it takes when it is a later positional argument.
   */
  datatype Arg =
    | Undefined
    | Null
    | Primitive(text: string)
    | ArrayObject(items: seq<Option<string>>, text: string)
    | PlainObject(fields: map<string, Option<string>>, text: string)
  {
    predicate IsObject() {
      Null? || ArrayObject? || PlainObject?
    }

    /**
     * The argument as a positional substitute: `undefined` stays missing,
     * `null` is substituted and prints as "null", and every other argument
     * prints as its string form.
     */
    function AsSubstitute(): (v: Option<string>)
      ensures v.None? <==> Undefined?
      ensures Null? ==> v == Some("null")
      ensures Primitive? || ArrayObject? || PlainObject? ==> v == Some(text)
    {
      match this
      case Undefined => None
      case Null => Some("null")
      case Primitive(s) => Some(s)
      case ArrayObject(_, s) => Some(s)
      case PlainObject(_, s) => Some(s)
    }
  }

  /**
   * Source selection: a first argument of type "object" is the source and the
   * remaining arguments are ignored; otherwise the whole argument list is.
   * `None` is the null first argument, which has no properties to look up.
   */
  function Select(args: seq<Arg>): (r: Option<Source>)
    ensures r.None? <==> |args| > 0 && args[0].Null?
    ensures |args| > 0 && args[0].ArrayObject? ==> r == Some(Positional(args[0].items))
    ensures |args| > 0 && args[0].PlainObject? ==> r == Some(Named(args[0].fields))
    ensures (|args| == 0 || !args[0].IsObject()) ==>
      && r.Some? && r.value.Positional? && |r.value.values| == |args|
      && forall i :: 0 <= i < |args| ==> r.value.values[i] == args[i].AsSubstitute()
  {
    if |args| > 0 && args[0].IsObject() then
      match args[0]
      case Null => None
      case ArrayObject(items, _) => Some(Positional(items))
      case PlainObject(fields, _) => Some(Named(fields))
    else
      Some(Positional(seq(|args|, i requires 0 <= i < |args| => args[i].AsSubstitute())))
  }

  /**
   * The argument list `f(...items)` for an array whose items are strings or
   * `undefined`. Items that are objects or `null` are not covered: spread out,
   * such a first item would itself be taken as the source.
   */
  function Spread(items: seq<Option<string>>): (args: seq<Arg>)
    ensures |args| == |items|
    ensures forall i :: 0 <= i < |items| ==> !args[i].IsObject() && args[i].AsSubstitute() == items[i]
  {
    seq(|items|, i requires 0 <= i < |items| =>
      if items[i].Some? then Primitive(items[i].value) else Undefined)
  }

  /** For items that are strings or `undefined`, passing one array selects the same source as spreading them. */
  lemma ArrayIsSpread(items: seq<Option<string>>, text: string)
    ensures Select([ArrayObject(items, text)]) == Select(Spread(items))
  {
    var r := Select(Spread(items));
    assert r.value.values == items;
  }

  /** A leading object is the source on its own: later arguments are never consulted. */
  lemma LaterArgumentsIgnored(first: Arg, rest: seq<Arg>)
    requires first.IsObject()
    ensures Select([first] + rest) == Select([first])
  {
  }
}
