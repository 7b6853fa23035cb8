/**
 * The single replace pass: every segment the scanner recognises is emitted
 * once, left to right, and emitted text is never scanned again.
 */
module Resolution {
  import opened Options
  import opened Keys
  import opened Substitutes
  import opened Scanner

  /**
   * The replacement for one segment: an escaped match drops its first
   * character (the backslash) without any lookup; an unescaped match becomes
   * the looked-up value unless that is `undefined`, in which case the match
   * text stays; other characters are copied.
   */
  function Emit(s: Segment, src: Source): (r: string)
    ensures s.Literal? ==> r == [s.c]
    ensures s.Escaped? ==> r == "{" + s.key + "}"
    ensures s.Placeholder? && Lookup(src, s.key).Some? ==> r == Lookup(src, s.key).value
    ensures s.Placeholder? && Lookup(src, s.key).None? ==> r == "{" + s.key + "}"
  {
    match s
    case Literal(_) => Text(s)
    case Escaped(_) => Text(s)[1..]
    case Placeholder(k) =>
      match Lookup(src, k)
      case Some(v) => v
      case None => Text(s)
  }

  function EmitAll(segs: seq<Segment>, src: Source): string
    decreases |segs|
  {
    if segs == [] then "" else Emit(segs[0], src) + EmitAll(segs[1..], src)
  }

  /** `template.replace(pattern, replacer)` with the given substitution source. */
  function Render(t: string, src: Source): (out: string)
    decreases |t|
  {
    if t == [] then []
    else
      var m := MatchAt(t, 0);
      Emit(m.0, src) + Render(t[m.1..], src)
  }

  /** Some unescaped placeholder of the template is looked up. */
  predicate Consults(t: string) {
    exists s :: s in Scan(t) && s.Placeholder?
  }

  /**
   * The output is the segments' replacements joined in order: each piece is
   * either template text or exactly one looked-up value, so a value that
   * itself looks like a placeholder is never resolved again.
   */
  lemma RenderBySegments(t: string, src: Source)
    ensures Render(t, src) == EmitAll(Scan(t), src)
  {
    RenderFromSegments(t, 0, src);
    assert t[0..] == t;
  }

  /** Rendering the rest of the template from position i emits the segments scanned from i. */
  lemma {:induction false} RenderFromSegments(t: string, i: nat, src: Source)
    requires i <= |t|
    ensures Render(t[i..], src) == EmitAll(ScanFrom(t, i), src)
    decreases |t| - i
  {
    if i < |t| {
      var m := MatchAt(t, i);
      RenderStep(t, i, src);
      RenderFromSegments(t, m.1, src);
      assert ScanFrom(t, i)[1..] == ScanFrom(t, m.1);
    } else {
      assert t[i..] == [];
    }
  }

  /** Segments without a placeholder emit the same text whatever the source. */
  lemma {:induction false} EmitAllSourceFree(segs: seq<Segment>, src1: Source, src2: Source)
    requires forall k :: 0 <= k < |segs| ==> !segs[k].Placeholder?
    ensures EmitAll(segs, src1) == EmitAll(segs, src2)
    decreases |segs|
  {
    if segs != [] {
      EmitAllSourceFree(segs[1..], src1, src2);
    }
  }

  /** Without an unescaped placeholder the source is never consulted, so it cannot matter. */
  lemma SourceIrrelevant(t: string, src1: Source, src2: Source)
    requires !Consults(t)
    ensures Render(t, src1) == Render(t, src2)
  {
    var segs := Scan(t);
    assert forall k :: 0 <= k < |segs| ==> segs[k] in segs;
    RenderBySegments(t, src1);
    RenderBySegments(t, src2);
    EmitAllSourceFree(segs, src1, src2);
  }

  lemma SplitFirst(t: string)
    requires t != []
    ensures t == [t[0]] + t[1..]
  {
  }

  /** A template without `{` holds no match at all and is returned as it stands. */
  lemma {:induction false} NoBraceRendersAsIs(t: string, src: Source)
    requires '{' !in t
    ensures Render(t, src) == t
    decreases |t|
  {
    if t != [] {
      var rest := t[1..];
      assert '{' !in rest by {
        assert forall k :: 0 <= k < |rest| ==> rest[k] == t[k + 1];
      }
      assert !OpensAt(t, 0) && !OpensAt(t, 1) by {
        assert t[0] != '{';
        assert |t| > 1 ==> t[1] != '{';
      }
      assert MatchAt(t, 0) == (Literal(t[0]), 1);
      NoBraceRendersAsIs(rest, src);
      assert Emit(Literal(t[0]), src) == [t[0]];
      assert Render(t, src) == [t[0]] + rest;
      SplitFirst(t);
    }
  }

  /** Literal segments render as exactly the text they were matched from. */
  lemma {:induction false} EmitAllLiterals(segs: seq<Segment>, src: Source)
    requires forall k :: 0 <= k < |segs| ==> segs[k].Literal?
    ensures EmitAll(segs, src) == Flatten(segs)
    decreases |segs|
  {
    if segs != [] {
      EmitAllLiterals(segs[1..], src);
    }
  }

  /** Where no `{key}` span opens, the pattern matches nothing: every segment is literal. */
  lemma NoSpanAllLiteral(t: string)
    requires forall i :: 0 <= i < |t| ==> !OpensAt(t, i)
    ensures forall k :: 0 <= k < |Scan(t)| ==> Scan(t)[k].Literal?
  {
    var segs := Scan(t);
    forall k | 0 <= k < |segs|
      ensures segs[k].Literal?
    {
      var d := Offset(segs, k);
      ScanLeftmost(t, k);
      assert !OpensAt(t, d);
      assert !OpensAt(t, d + 1);
    }
  }

  /**
   * A template in which the pattern finds no match (no `{key}` span anywhere,
   * as in `{a:b}`, `}{` or `{0`) is returned as it stands, whatever the source.
   */
  lemma NoMatchRendersAsIs(t: string, src: Source)
    requires forall i :: 0 <= i < |t| ==> !OpensAt(t, i)
    ensures Render(t, src) == t
  {
    NoSpanAllLiteral(t);
    RenderBySegments(t, src);
    EmitAllLiterals(Scan(t), src);
  }

  /** A template in which the pattern finds no match consults no source. */
  lemma NoMatchNoLookup(t: string)
    requires forall i :: 0 <= i < |t| ==> !OpensAt(t, i)
    ensures !Consults(t)
  {
    NoSpanAllLiteral(t);
  }

  /** Without a brace there is no placeholder to consult. */
  lemma NoBraceNoLookup(t: string)
    requires '{' !in t
    ensures !Consults(t)
  {
    forall i | 0 <= i < |t|
      ensures !OpensAt(t, i)
    {
      assert t[i] != '{';
    }
    NoMatchNoLookup(t);
  }

  /**
   * With no substitute defined (a call without arguments) and no backslash,
   * nothing is replaced: every placeholder keeps its text.
   */
  lemma {:induction false} NoValuesNoBackslashUnchanged(t: string)
    requires '\\' !in t
    ensures Render(t, Positional([])) == t
    decreases |t|
  {
    if t != [] {
      var none := Positional([]);
      var m := MatchAt(t, 0);
      var rest := t[m.1..];
      assert Render(t, none) == Emit(m.0, none) + Render(rest, none);
      EmitWithoutValues(m.0);
      assert '\\' !in rest by {
        assert forall k :: 0 <= k < |rest| ==> rest[k] == t[m.1 + k];
      }
      NoValuesNoBackslashUnchanged(rest);
      SplitAt(t, m.1);
    }
  }

  /** With no substitutes, an unescaped segment renders as its own text. */
  lemma EmitWithoutValues(s: Segment)
    requires !s.Escaped?
    ensures Emit(s, Positional([])) == Text(s)
  {
  }

  /** Cutting a string at n and joining the halves gives it back. */
  lemma SplitAt(t: string, n: nat)
    requires n <= |t|
    ensures t[0..n] + t[n..] == t
  {
  }

  /** `\{key}` at the front becomes `{key}` whatever the source holds: escaping beats lookup. */
  lemma EscapedFirst(k: string, rest: string, src: Source)
    requires IsKey(k)
    ensures Render("\\{" + k + "}" + rest, src) == "{" + k + "}" + Render(rest, src)
  {
    var t := "\\{" + k + "}" + rest;
    var e := |k| + 2;
    assert t[0] == '\\' && t[1] == '{' && t[e] == '}' && t[2..e] == k;
    RunEndIs(t, 2, e);
    assert CloseAt(t, 1) == Some(e);
    var m := MatchAt(t, 0);
    assert m.0 == Escaped(k) && m.1 == e + 1;
    assert Emit(m.0, src) == "{" + k + "}";
    assert t[e + 1..] == rest;
  }

  /**
   * `{key}` at the front becomes the key's value when it is defined (even
   * the empty string) and stays `{key}` when it is `undefined` or absent.
   */
  lemma PlaceholderFirst(k: string, rest: string, src: Source)
    requires IsKey(k)
    ensures Lookup(src, k).Some? ==> Render("{" + k + "}" + rest, src) == Lookup(src, k).value + Render(rest, src)
    ensures Lookup(src, k).None? ==> Render("{" + k + "}" + rest, src) == "{" + k + "}" + Render(rest, src)
  {
    var t := "{" + k + "}" + rest;
    var e := |k| + 1;
    assert t[e] == '}' && t[1..e] == k;
    RunEndIs(t, 1, e);
    var m := MatchAt(t, 0);
    assert m == (Placeholder(k), e + 1);
    assert t[e + 1..] == rest;
  }

  /** A character that cannot open a match is copied and scanning moves on by one. */
  lemma LiteralFirst(c: char, rest: string, src: Source)
    requires c != '{' && c != '\\'
    ensures Render([c] + rest, src) == [c] + Render(rest, src)
  {
    var t := [c] + rest;
    assert t[1..] == rest;
  }

  /** Regrouping a leading character: pure sequence facts used by `PlainFirst`. */
  lemma Regroup(s: string, rest: string, r: string)
    requires s != []
    ensures s + rest == [s[0]] + (s[1..] + rest)
    ensures [s[0]] + (s[1..] + r) == s + r
  {
    SplitFirst(s);
  }

  /** Text with neither `{` nor a backslash is copied as it stands, whatever follows it. */
  lemma {:induction false} PlainFirst(s: string, rest: string, src: Source)
    requires '{' !in s && '\\' !in s
    ensures Render(s + rest, src) == s + Render(rest, src)
    decreases |s|
  {
    if s == [] {
      assert s + rest == rest;
    } else {
      var tail := s[1..];
      assert '{' !in tail && '\\' !in tail by {
        assert forall k :: 0 <= k < |tail| ==> tail[k] == s[k + 1];
      }
      Regroup(s, rest, Render(rest, src));
      LiteralFirst(s[0], tail + rest, src);
      PlainFirst(tail, rest, src);
    }
  }

  /**
   * An opening brace met by another `{` before any `}` cannot close, so it
   * stays literal and the inner placeholders are resolved on their own.
   */
  lemma NestedOpenIsLiteral(t: string, j: nat, src: Source)
    requires 0 < j < |t| && t[0] == '{' && t[j] == '{'
    requires forall m :: 0 < m < j ==> t[m] != '}'
    ensures Render(t, src) == "{" + Render(t[1..], src)
  {
    assert RunEnd(t, 1) <= j;
  }

  /** Rendering from position i is the match found at i followed by rendering from where it ends. */
  lemma RenderStep(t: string, i: nat, src: Source)
    requires i < |t|
    ensures Render(t[i..], src) == Emit(MatchAt(t, i).0, src) + Render(t[MatchAt(t, i).1..], src)
  {
    var u := t[i..];
    var m := MatchAt(t, i);
    var mu := MatchAt(u, 0);
    MatchAtShift(t, i);
    assert mu.0 == m.0 && mu.1 == m.1 - i;
    SuffixOfSuffix(t, i, m.1);
    assert u[mu.1..] == t[m.1..];
    RenderUnfold(u, src);
  }

  /** One unfolding of `Render` on a non-empty template. */
  lemma RenderUnfold(t: string, src: Source)
    requires t != []
    ensures Render(t, src) == Emit(MatchAt(t, 0).0, src) + Render(t[MatchAt(t, 0).1..], src)
  {
  }

  /** A suffix of a suffix is a suffix: a pure sequence fact used by `RenderStep`. */
  lemma SuffixOfSuffix(t: string, i: nat, j: nat)
    requires i <= j <= |t|
    ensures t[i..][j - i..] == t[j..]
  {
  }

  /**
   * `\{key}`, plain text, `{key}` again, then more plain text: the escaped
   * copy keeps its braces even when the key resolves, the unescaped copy is
   * looked up.
   */
  lemma EscapeThenLookup(k: string, mid: string, post: string, src: Source)
    requires IsKey(k) && '{' !in mid && '\\' !in mid && '{' !in post && '\\' !in post
    ensures Render("\\{" + k + "}" + mid + "{" + k + "}" + post, src)
      == "{" + k + "}" + mid + Emit(Placeholder(k), src) + post
  {
    var e := Emit(Placeholder(k), src);
    var last := "{" + k + "}" + post;
    EscapeShape(k, mid, post, e);
    PlainFirst(post, "", src);
    PlaceholderFirst(k, post, src);
    assert Render(last, src) == e + post;
    PlainFirst(mid, last, src);
    EscapedFirst(k, mid + last, src);
  }

  /** Regrouping of the text and the output of `EscapeThenLookup`. */
  lemma EscapeShape(k: string, mid: string, post: string, e: string)
    ensures "\\{" + k + "}" + mid + "{" + k + "}" + post == "\\{" + k + "}" + (mid + ("{" + k + "}" + post))
    ensures "{" + k + "}" + (mid + (e + post)) == "{" + k + "}" + mid + e + post
    ensures post + "" == post
  {
  }

  /** Regrouping of the text and the output of NestedInnerOnly. */
  lemma NestedShape(pre: string, k0: string, mid: string, k1: string, post: string, e0: string, e1: string)
    ensures "{" + pre + "{" + k0 + "}" + mid + "{" + k1 + "}" + post
      == "{" + (pre + ("{" + k0 + "}" + (mid + ("{" + k1 + "}" + post))))
    ensures "{" + (pre + (e0 + (mid + (e1 + post)))) == "{" + pre + e0 + mid + e1 + post
    ensures post + "" == post
    ensures '}' !in pre ==>
      var t := "{" + (pre + ("{" + k0 + "}" + (mid + ("{" + k1 + "}" + post))));
      && t[1..] == pre + ("{" + k0 + "}" + (mid + ("{" + k1 + "}" + post)))
      && |pre| + 1 < |t| && t[|pre| + 1] == '{'
      && forall m :: 0 < m < |pre| + 1 ==> t[m] != '}'
  {
    var t := "{" + (pre + ("{" + k0 + "}" + (mid + ("{" + k1 + "}" + post))));
    assert forall m :: 0 < m < |pre| + 1 ==> t[m] == pre[m - 1];
  }

  /**
   * `{pre{k0}mid{k1}post}`-shaped text: the outer opening brace meets an
   * inner `{` before any `}` and stays literal, while the inner placeholders
   * are resolved on their own and the trailing `}` is copied.
   */
  lemma NestedInnerOnly(pre: string, k0: string, mid: string, k1: string, post: string, src: Source)
    requires IsKey(k0) && IsKey(k1)
    requires '{' !in pre && '\\' !in pre && '}' !in pre
    requires '{' !in mid && '\\' !in mid && '{' !in post && '\\' !in post
    ensures Render("{" + pre + "{" + k0 + "}" + mid + "{" + k1 + "}" + post, src)
      == "{" + pre + Emit(Placeholder(k0), src) + mid + Emit(Placeholder(k1), src) + post
  {
    var r4 := "{" + k1 + "}" + post;
    var r3 := mid + r4;
    var r2 := "{" + k0 + "}" + r3;
    var r1 := pre + r2;
    var t := "{" + r1;
    NestedShape(pre, k0, mid, k1, post, Emit(Placeholder(k0), src), Emit(Placeholder(k1), src));
    PlainFirst(post, "", src);
    PlaceholderFirst(k1, post, src);
    PlainFirst(mid, r4, src);
    PlaceholderFirst(k0, r3, src);
    PlainFirst(pre, r2, src);
    NestedOpenIsLiteral(t, |pre| + 1, src);
  }

  /** Concatenation regrouped: a pure sequence fact used by `RenderByCursor`. */
  lemma Regroup3(a: string, b: string, c: string)
    ensures (a + b) + c == a + (b + c)
  {
  }

  /**
   * The cursor-based form of the replace loop: the output built so far plus
   * the rendering of what is left is always the full rendering.
   */
  method RenderByCursor(t: string, src: Source) returns (out: string)
    ensures out == Render(t, src)
  {
    out := "";
    var i := 0;
    while i < |t|
      invariant 0 <= i <= |t|
      invariant out + Render(t[i..], src) == Render(t, src)
      decreases |t| - i
    {
      var m := MatchAt(t, i);
      var piece := Emit(m.0, src);
      RenderStep(t, i, src);
      Regroup3(out, piece, Render(t[m.1..], src));
      out := out + piece;
      i := m.1;
    }
    assert t[i..] == [];
  }
}
