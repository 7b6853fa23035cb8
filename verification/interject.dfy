/**
 * `interject(template)` returns a resolver; calling the resolver selects a
 * substitution source from its arguments and performs the replace pass.
 */
module Interjector {
  import opened Options
  import opened Keys
  import opened Substitutes
  import opened Scanner
  import opened Resolution

  /** What a resolver call does: return a string, or throw when it reads a property of `null`. */
  datatype Outcome = Returned(text: string) | ThrewTypeError

  /** The closure `interject(template)`: it holds its template and nothing else. */
  datatype Resolver = Resolver(template: string) {

    /** `resolver(...args)`. */
    function Apply(args: seq<Arg>): (r: Outcome)
      ensures r.ThrewTypeError? <==> |args| > 0 && args[0].Null? && Consults(template)
      ensures Select(args).Some? ==> r == Returned(Render(template, Select(args).value))
    {
      match Select(args)
      case Some(src) => Returned(Render(template, src))
      case None =>
        // `null[item]` throws at the first unescaped match; with none, the
        // source is never read and any source renders the same text.
        if Consults(template) then ThrewTypeError else Returned(Render(template, Positional([])))
    }
  }

  /** `interject(template = "")`. */
  function Interject(template: string := ""): Resolver {
    Resolver(template)
  }

  /** The default template renders as the empty string for any arguments. */
  lemma DefaultTemplateIsEmpty(args: seq<Arg>)
    ensures Interject().Apply(args) == Returned("")
  {
    assert Scan("") == [] by {
      assert Flatten(Scan("")) == "";
    }
  }

  /** A template without `{` comes back unchanged, whatever the arguments. */
  lemma NoBraceReturnsTemplate(t: string, args: seq<Arg>)
    requires '{' !in t
    ensures Interject(t).Apply(args) == Returned(t)
  {
    NoBraceNoLookup(t);
    NoBraceRendersAsIs(t, Select(args).GetOr(Positional([])));
  }

  /** A template in which the pattern finds no match comes back unchanged, whatever the arguments. */
  lemma NoMatchReturnsTemplate(t: string, args: seq<Arg>)
    requires forall i :: 0 <= i < |t| ==> !OpensAt(t, i)
    ensures Interject(t).Apply(args) == Returned(t)
  {
    NoMatchNoLookup(t);
    NoMatchRendersAsIs(t, Select(args).GetOr(Positional([])));
  }

  /** Called without arguments, a template without backslashes comes back unchanged. */
  lemma NoArgumentsUnchanged(t: string)
    requires '\\' !in t
    ensures Interject(t).Apply([]) == Returned(t)
  {
    NoValuesNoBackslashUnchanged(t);
  }

  /** Whichever source is selected, a template that looks nothing up renders the same. */
  lemma NoLookupArgumentsIrrelevant(t: string, args1: seq<Arg>, args2: seq<Arg>)
    requires !Consults(t)
    ensures Interject(t).Apply(args1) == Interject(t).Apply(args2)
  {
    var s1 := Select(args1).GetOr(Positional([]));
    var s2 := Select(args2).GetOr(Positional([]));
    SourceIrrelevant(t, s1, Positional([]));
    SourceIrrelevant(t, s2, Positional([]));
  }

  /** For items that are strings or `undefined`, `resolver([a, b])` behaves as `resolver(a, b)`. */
  lemma ArrayArgumentIsSpread(t: string, items: seq<Option<string>>, text: string)
    ensures Interject(t).Apply([ArrayObject(items, text)]) == Interject(t).Apply(Spread(items))
  {
    ArrayIsSpread(items, text);
  }

  /** A leading object is looked up by its own keys; any later argument is ignored. */
  lemma ObjectArgumentIsNamed(t: string, fields: map<string, Option<string>>, text: string, rest: seq<Arg>)
    ensures Interject(t).Apply([PlainObject(fields, text)] + rest) == Returned(Render(t, Named(fields)))
  {
  }

  /** Empty braces name the empty key, which is never an index: `{}` stays as it is. */
  lemma EmptyBracesStay(args: seq<Arg>, rest: string)
    requires |args| == 0 || !args[0].IsObject()
    ensures Interject("{}" + rest).Apply(args) == Returned("{}" + Render(rest, Select(args).value))
  {
    PlaceholderFirst("", rest, Select(args).value);
    assert "{" + "" + "}" == "{}";
  }

  /**
   * Positional placeholder `{n}`: replaced by the n-th argument's string form
   * when there is an n-th argument and it is not `undefined`; otherwise (past
   * the last argument, or `undefined`) it stays `{n}`.
   */
  lemma PositionalPlaceholder(args: seq<Arg>, n: nat, rest: string)
    requires |args| == 0 || !args[0].IsObject()
    ensures n < |args| && args[n].Undefined? ==>
      Interject("{" + Decimal(n) + "}" + rest).Apply(args) ==
      Returned("{" + Decimal(n) + "}" + Render(rest, Select(args).value))
    ensures n < |args| && !args[n].Undefined? ==>
      Interject("{" + Decimal(n) + "}" + rest).Apply(args) ==
      Returned(args[n].AsSubstitute().value + Render(rest, Select(args).value))
    ensures n >= |args| ==>
      Interject("{" + Decimal(n) + "}" + rest).Apply(args) ==
      Returned("{" + Decimal(n) + "}" + Render(rest, Select(args).value))
  {
    var src := Select(args).value;
    if n < |args| {
      LookupIndex(src.values, n);
    } else {
      LookupOutOfRange(src.values, n);
    }
    PlaceholderFirst(Decimal(n), rest, src);
  }
}
