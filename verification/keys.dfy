/**
 * Placeholder keys: the character class `[\w -\/.]` of the placeholder pattern,
 * and the canonical decimal strings under which an argument list is indexed.
 */
module Keys {
  import opened Options

  /** `\w` without the Unicode flag: ASCII letters, digits and the underscore. */
  predicate IsWordChar(c: char) {
    ('A' <= c <= 'Z') || ('a' <= c <= 'z') || ('0' <= c <= '9') || c == '_'
  }

  /**
   * A character of the class `[\w -\/.]`. Inside the class ` -\/` is a range,
   * U+0020 (space) to U+002F (slash), so it admits all of `!"#$%&'()*+,-./`;
   * the trailing `.` is already inside that range.
   */
  function IsKeyChar(c: char): (b: bool)
    ensures b ==> ' ' <= c <= 'z' && !('[' <= c <= '^')
  {
    IsWordChar(c) || (' ' <= c <= '/')
  }

  /** The characters the range ` -\/` of the key class spans, written out. */
  const Punctuation: string := " !\"#$%&'()*+,-./"

  /**
   * The key class is the word characters plus exactly the sixteen listed
   * punctuation characters; braces and the backslash are outside it, which is
   * why a key run can neither swallow its closing brace nor need backtracking.
   */
  lemma KeyClassListed(c: char)
    ensures IsKeyChar(c) <==> IsWordChar(c) || c in Punctuation
    ensures c == '{' || c == '}' || c == '\\' ==> !IsKeyChar(c)
  {
    if ' ' <= c <= '/' {
      var i := (c as int) - (' ' as int);
      assert 0 <= i < 16;
      assert Punctuation[i] == c;
    }
  }

  /** A string the placeholder pattern accepts between its braces (possibly empty). */
  predicate IsKey(k: string) {
    forall i :: 0 <= i < |k| ==> IsKeyChar(k[i])
  }

  predicate IsDigit(c: char) {
    '0' <= c <= '9'
  }

  function DigitValue(c: char): (d: nat)
    requires IsDigit(c)
    ensures d < 10
  {
    (c as int) - ('0' as int)
  }

  function DigitChar(d: nat): (c: char)
    requires d < 10
    ensures IsDigit(c) && DigitValue(c) == d
  {
    ('0' as int + d) as char
  }

  /**
   * A canonical array-index string: one or more decimal digits and no leading
   * zero unless the string is exactly "0". JavaScript reads `"01"`, `""` or
   * `"1.0"` as ordinary property names, never as array elements.
   */
  predicate IsIndexKey(k: string) {
    && |k| > 0
    && (forall i :: 0 <= i < |k| ==> IsDigit(k[i]))
    && (|k| > 1 ==> k[0] != '0')
  }

  /** The decimal form of `n`, as JavaScript prints an array index. */
  function Decimal(n: nat): (s: string)
    ensures IsIndexKey(s)
    ensures s[0] == '0' <==> n == 0
    decreases n
  {
    if n < 10 then [DigitChar(n)] else Decimal(n / 10) + [DigitChar(n % 10)]
  }

  /** The number a string of decimal digits denotes. */
  function DigitsValue(k: string): nat
    requires forall i :: 0 <= i < |k| ==> IsDigit(k[i])
    decreases |k|
  {
    if |k| == 0 then 0 else DigitsValue(k[..|k| - 1]) * 10 + DigitValue(k[|k| - 1])
  }

  /** The array index a property name denotes, if it is a canonical index string. */
  function ParseIndex(k: string): (r: Option<nat>)
    ensures r.Some? ==> (r.value == 0 <==> k == "0")
  {
    if IsIndexKey(k) then
      if k[0] != '0' then DigitsValuePositive(k); Some(DigitsValue(k))
      else
        assert |k| == 1 && k[..0] == [];
        assert DigitsValue(k) == DigitsValue([]) * 10 + DigitValue('0') == 0;
        Some(DigitsValue(k))
    else None
  }

  /** Printing an index and reading it back yields the index. */
  lemma {:induction false} DecimalParses(n: nat)
    ensures ParseIndex(Decimal(n)) == Some(n)
    decreases n
  {
    var t := Decimal(n);
    if n < 10 {
      assert t[..0] == [];
    } else {
      var s := Decimal(n / 10);
      DecimalParses(n / 10);
      assert t == s + [DigitChar(n % 10)];
      assert t[..|t| - 1] == s;
      assert DigitsValue(t) == (n / 10) * 10 + n % 10;
    }
  }

  /** A leading digit other than zero makes the value positive. */
  lemma {:induction false} DigitsValuePositive(k: string)
    requires |k| > 0 && forall i :: 0 <= i < |k| ==> IsDigit(k[i])
    requires k[0] != '0'
    ensures DigitsValue(k) > 0
    decreases |k|
  {
    if |k| > 1 {
      DigitsValuePositive(k[..|k| - 1]);
    }
  }

  /** Every canonical index string is the decimal form of the index it denotes. */
  lemma {:induction false} ParseIndexIsDecimal(k: string)
    requires ParseIndex(k).Some?
    ensures Decimal(ParseIndex(k).value) == k
    decreases |k|
  {
    var n := DigitsValue(k);
    if |k| == 1 {
      assert k[..0] == [];
      assert DigitsValue(k[..0]) == 0;
      assert n == DigitValue(k[0]) < 10;
      assert Decimal(n) == [DigitChar(n)] == [k[0]] == k;
    } else {
      var p := k[..|k| - 1];
      assert IsIndexKey(p);
      DigitsValuePositive(p);
      ParseIndexIsDecimal(p);
      assert n >= 10 && n / 10 == DigitsValue(p) && n % 10 == DigitValue(k[|k| - 1]);
      assert DigitChar(n % 10) == k[|k| - 1];
      assert k == p + [k[|k| - 1]];
    }
  }
}
