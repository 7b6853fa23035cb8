/**
 * The placeholder pattern `\\?\{([\w -\/.]*)\}` as an explicit left-to-right
 * scanner. Because the key class holds neither brace nor backslash, the greedy
 * key run either ends right at a `}` or the attempt fails: no backtracking is
 * involved, and at most one placeholder can open at any position.
 */
module Scanner {
  import opened Options
  import opened Keys

  /** A piece of the template: a plain character, `\{key}`, or `{key}`. */
  datatype Segment = Literal(c: char) | Escaped(key: string) | Placeholder(key: string)

  /** The template text a segment was matched from. */
  function Text(s: Segment): string {
    match s
    case Literal(c) => [c]
    case Escaped(k) => "\\{" + k + "}"
    case Placeholder(k) => "{" + k + "}"
  }

  function Flatten(segs: seq<Segment>): string
    decreases |segs|
  {
    if segs == [] then "" else Text(segs[0]) + Flatten(segs[1..])
  }

  lemma FlattenCons(s: Segment, segs: seq<Segment>)
    ensures Flatten([s] + segs) == Text(s) + Flatten(segs)
  {
    assert ([s] + segs)[1..] == segs;
  }

  /** `{key}` spans t[i..e+1]: an opening brace at i, key characters only, the closing brace at e. */
  ghost predicate BracedAt(t: string, i: nat, e: nat) {
    i < e < |t| && t[i] == '{' && t[e] == '}' && IsKey(t[i + 1..e])
  }

  /** Some placeholder `{key}` opens at position i. */
  ghost predicate OpensAt(t: string, i: nat) {
    exists e :: BracedAt(t, i, e)
  }

  /** A position holds at most one placeholder: its closing brace is determined. */
  lemma BracedUnique(t: string, i: nat, e1: nat, e2: nat)
    requires BracedAt(t, i, e1) && BracedAt(t, i, e2)
    ensures e1 == e2
  {
  }

  /** The end of the longest run of key characters in t starting at j. */
  function RunEnd(t: string, j: nat): (e: nat)
    requires j <= |t|
    ensures j <= e <= |t|
    ensures forall m :: j <= m < e ==> IsKeyChar(t[m])
    ensures e < |t| ==> !IsKeyChar(t[e])
    decreases |t| - j
  {
    if j < |t| && IsKeyChar(t[j]) then RunEnd(t, j + 1) else j
  }

  /** The run is determined by its two defining properties. */
  lemma RunEndIs(t: string, j: nat, e: nat)
    requires j <= e <= |t|
    requires forall m :: j <= m < e ==> IsKeyChar(t[m])
    requires e < |t| ==> !IsKeyChar(t[e])
    ensures RunEnd(t, j) == e
  {
  }

  /** No closing brace can lie past the end of the key run that follows an opening brace. */
  lemma NoBraceBeyondRun(t: string, i: nat, e: nat)
    requires i < |t| && BracedAt(t, i, e)
    ensures e == RunEnd(t, i + 1)
  {
  }

  /**
   * Where the placeholder opening at i closes, as a bare computation; `CloseAt`
   * is the same value together with what it means.
   */
  function Close(t: string, i: nat): (r: Option<nat>)
    requires i <= |t|
    ensures r.Some? ==> i < r.value < |t| && t[i] == '{' && t[r.value] == '}'
  {
    if i < |t| && t[i] == '{' then
      var e := RunEnd(t, i + 1);
      if e < |t| && t[e] == '}' then Some(e) else None
    else
      None
  }

  /** Where the placeholder opening at i closes, if one opens there. */
  function CloseAt(t: string, i: nat): (r: Option<nat>)
    requires i <= |t|
    ensures r.Some? ==> BracedAt(t, i, r.value)
    ensures r.None? ==> forall e :: !BracedAt(t, i, e)
    ensures r.Some? <==> OpensAt(t, i)
  {
    if i < |t| && t[i] == '{' then
      var e := RunEnd(t, i + 1);
      if e < |t| && t[e] == '}' then
        assert BracedAt(t, i, e);
        Close(t, i)
      else
        assert forall e' :: BracedAt(t, i, e') ==> e' == e by {
          forall e' | BracedAt(t, i, e') {
            NoBraceBeyondRun(t, i, e');
          }
        }
        Close(t, i)
    else
      Close(t, i)
  }

  /** The text of a `{key}` span, as a pure sequence fact. */
  lemma BracedText(t: string, i: nat, e: nat)
    requires i < e < |t| && t[i] == '{' && t[e] == '}'
    ensures t[i..e + 1] == "{" + t[i + 1..e] + "}"
  {
  }

  /** The text of a `\\{key}` span, as a pure sequence fact. */
  lemma EscapedText(t: string, i: nat, e: nat)
    requires i + 1 < e < |t| && t[i] == '\\' && t[i + 1] == '{' && t[e] == '}'
    ensures t[i..e + 1] == "\\{" + t[i + 2..e] + "}"
  {
  }

  /**
   * One step of the global replace at position i, as a bare computation: try
   * `\\{key}`, then `{key}`, else take one character literally. `r.1` is where
   * scanning resumes.
   */
  function Step(t: string, i: nat): (r: (Segment, nat))
    requires i < |t|
    ensures i < r.1 <= |t|
  {
    var escaped := if t[i] == '\\' then Close(t, i + 1) else None;
    var braced := Close(t, i);
    if escaped.Some? then
      (Escaped(t[i + 2..escaped.value]), escaped.value + 1)
    else if braced.Some? then
      (Placeholder(t[i + 1..braced.value]), braced.value + 1)
    else
      (Literal(t[i]), i + 1)
  }

  /** One step of the global replace at position i, with what its result means. */
  function MatchAt(t: string, i: nat): (r: (Segment, nat))
    requires i < |t|
    ensures i < r.1 <= |t| && Text(r.0) == t[i..r.1]
    ensures r.0.Escaped? <==> t[i] == '\\' && OpensAt(t, i + 1)
    ensures r.0.Placeholder? <==> OpensAt(t, i)
    ensures !r.0.Literal? ==> IsKey(r.0.key)
  {
    var escaped := if t[i] == '\\' then CloseAt(t, i + 1) else None;
    var braced := CloseAt(t, i);
    if escaped.Some? then
      EscapedText(t, i, escaped.value);
      Step(t, i)
    else if braced.Some? then
      BracedText(t, i, braced.value);
      Step(t, i)
    else
      Step(t, i)
  }

  /** Where segment k starts in the text the segments spell. */
  function Offset(segs: seq<Segment>, k: nat): nat
    requires k <= |segs|
  {
    |Flatten(segs[..k])|
  }

  /**
   * Segment k of `segs`, scanned from position i of t, is the match attempted
   * where it starts (`Step`, the value `MatchAt` specifies).
   */
  predicate MatchedAt(t: string, i: nat, segs: seq<Segment>, k: nat)
    requires k < |segs|
  {
    i + Offset(segs, k) < |t| && segs[k] == Step(t, i + Offset(segs, k)).0
  }

  /**
   * The segments the global pattern cuts `t[i..]` into, the search resuming
   * where each match ended: segment k is the match attempted at
   * `i + Offset(segs, k)`.
   */
  function ScanFrom(t: string, i: nat): (segs: seq<Segment>)
    requires i <= |t|
    ensures Flatten(segs) == t[i..]
    ensures forall k :: 0 <= k < |segs| && !segs[k].Literal? ==> IsKey(segs[k].key)
    ensures forall k :: 0 <= k < |segs| ==> MatchedAt(t, i, segs, k)
    decreases |t| - i
  {
    if i == |t| then []
    else
      var m := MatchAt(t, i);
      var rest := ScanFrom(t, m.1);
      ScanCons(t, i, m.0, m.1, rest);
      KeysCons(m.0, rest);
      LeftmostCons(t, i, rest);
      [m.0] + rest
  }

  /**
   * The template cut into the segments the pattern recognises, left to right:
   * each segment is the leftmost match where the previous one ended, so a
   * `Literal` sits only where neither `{key}` nor `\\{key}` opens.
   */
  function Scan(t: string): (segs: seq<Segment>)
    ensures Flatten(segs) == t
    ensures forall k :: 0 <= k < |segs| && !segs[k].Literal? ==> IsKey(segs[k].key)
    ensures forall k :: 0 <= k < |segs| ==> MatchedAt(t, 0, segs, k)
  {
    assert t[0..] == t;
    ScanFrom(t, 0)
  }

  /**
   * Each segment of the scan is the leftmost match where the previous one
   * ended: a placeholder exactly where a `{key}` span opens, an escaped match
   * exactly where a backslash precedes one, and a single literal character
   * only where neither is the case.
   */
  lemma ScanLeftmost(t: string, k: nat)
    requires k < |Scan(t)|
    ensures var d := Offset(Scan(t), k);
      && d < |t| && Scan(t)[k] == MatchAt(t, d).0
      && (Scan(t)[k].Placeholder? <==> OpensAt(t, d))
      && (Scan(t)[k].Escaped? <==> t[d] == '\\' && OpensAt(t, d + 1))
  {
    var d := Offset(Scan(t), k);
    assert MatchedAt(t, 0, Scan(t), k);
    assert MatchAt(t, d) == Step(t, d);
  }

  /** Behind a leading segment, offsets grow by that segment's text. */
  lemma OffsetCons(s: Segment, rest: seq<Segment>, k: nat)
    requires 0 < k <= |rest| + 1
    ensures Offset([s] + rest, k) == |Text(s)| + Offset(rest, k - 1)
  {
    assert ([s] + rest)[..k] == [s] + rest[..k - 1];
    FlattenCons(s, rest[..k - 1]);
  }

  /** Putting the match at i in front of the scan from where it ends: the text is spelled out. */
  lemma ScanCons(t: string, i: nat, s: Segment, n: nat, rest: seq<Segment>)
    requires i <= n <= |t| && Text(s) == t[i..n] && Flatten(rest) == t[n..]
    ensures Flatten([s] + rest) == t[i..]
  {
    FlattenCons(s, rest);
    assert t[i..] == t[i..n] + t[n..];
  }

  /** Putting a segment with a valid key (if any) in front of segments with valid keys. */
  lemma KeysCons(s: Segment, rest: seq<Segment>)
    requires !s.Literal? ==> IsKey(s.key)
    requires forall k :: 0 <= k < |rest| && !rest[k].Literal? ==> IsKey(rest[k].key)
    ensures forall k :: 0 <= k < |[s] + rest| && !([s] + rest)[k].Literal? ==> IsKey(([s] + rest)[k].key)
  {
    var segs := [s] + rest;
    forall k | 0 <= k < |segs| && !segs[k].Literal?
      ensures IsKey(segs[k].key)
    {
      if k > 0 {
        assert segs[k] == rest[k - 1];
      }
    }
  }

  /** Putting the match at i in front of the scan from where it ends: every segment stays at its match. */
  lemma LeftmostCons(t: string, i: nat, rest: seq<Segment>)
    requires i < |t|
    requires forall k :: 0 <= k < |rest| ==> MatchedAt(t, MatchAt(t, i).1, rest, k)
    ensures forall k :: 0 <= k < |[MatchAt(t, i).0] + rest| ==> MatchedAt(t, i, [MatchAt(t, i).0] + rest, k)
  {
    var m := MatchAt(t, i);
    var segs := [m.0] + rest;
    forall k | 0 <= k < |segs|
      ensures MatchedAt(t, i, segs, k)
    {
      if k == 0 {
        assert segs[..0] == [];
      } else {
        ConsMatched(t, i, rest, k);
      }
    }
  }

  /** Segment k behind the match at i is the segment k - 1 of the scan from where that match ends. */
  lemma ConsMatched(t: string, i: nat, rest: seq<Segment>, k: nat)
    requires i < |t| && 0 < k <= |rest|
    requires MatchedAt(t, MatchAt(t, i).1, rest, k - 1)
    ensures MatchedAt(t, i, [MatchAt(t, i).0] + rest, k)
  {
    var m := MatchAt(t, i);
    var d := Offset(rest, k - 1);
    assert |Text(m.0)| == m.1 - i;
    OffsetCons(m.0, rest, k);
    assert Offset([m.0] + rest, k) == m.1 - i + d;
    assert ([m.0] + rest)[k] == rest[k - 1];
  }

  /** The run of key characters depends only on the suffix it is in. */
  lemma {:induction false} RunEndShift(t: string, d: nat, j: nat)
    requires d + j <= |t|
    ensures RunEnd(t[d..], j) == RunEnd(t, d + j) - d
    decreases |t| - d - j
  {
    if d + j < |t| && IsKeyChar(t[d + j]) {
      RunEndShift(t, d, j + 1);
    }
  }

  /** Where a placeholder closes depends only on the suffix it opens in. */
  lemma CloseShift(t: string, d: nat, j: nat)
    requires d + j <= |t|
    ensures Close(t[d..], j) == if Close(t, d + j).Some? then Some(Close(t, d + j).value - d) else None
  {
    if d + j < |t| {
      RunEndShift(t, d, j + 1);
    }
  }

  /** A slice of a suffix is the matching slice of the whole. */
  lemma SliceShift(t: string, d: nat, a: nat, b: nat)
    requires d <= a <= b <= |t|
    ensures t[d..][a - d..b - d] == t[a..b]
  {
  }

  /** The bare step at position d of t is the step at the start of t[d..]. */
  lemma StepShift(t: string, d: nat)
    requires d < |t|
    ensures Step(t[d..], 0) == (Step(t, d).0, Step(t, d).1 - d)
  {
    var u := t[d..];
    assert u[0] == t[d];
    var c := Close(t, d);
    CloseShift(t, d, 0);
    if t[d] == '\\' && d + 1 < |t| && Close(t, d + 1).Some? {
      var e := Close(t, d + 1).value;
      CloseShift(t, d, 1);
      SliceShift(t, d, d + 2, e);
    } else if c.Some? {
      if d + 1 < |t| {
        CloseShift(t, d, 1);
      }
      SliceShift(t, d, d + 1, c.value);
    } else if d + 1 < |t| {
      CloseShift(t, d, 1);
    }
  }

  /** Matching at position d of t is matching at the start of t[d..]. */
  lemma MatchAtShift(t: string, d: nat)
    requires d < |t|
    ensures MatchAt(t[d..], 0) == (MatchAt(t, d).0, MatchAt(t, d).1 - d)
  {
    StepShift(t, d);
  }
}
