# interject, modelled in Dafny

`interject(template = "")` returns a resolver. Calling the resolver picks a
substitution source from its arguments and makes one left-to-right pass over
the template with the global pattern `\\?\{([\w -\/.]*)\}`. Three kinds of match
are handled differently:

- an escaped match `\{key}` loses its backslash and nothing is looked up;
- an unescaped match `{key}` becomes the key's value, unless that value is
  `undefined`, in which case the match text stays;
- everything else is copied.

The model has one module per concern:

- `Options` (`options.dfy`): `Option<T>`, where `None` is `undefined`.
- `Keys` (`keys.dfy`): the key character class, and the canonical decimal
  strings that name array indices.
  - The class `[\w -\/.]` holds the ASCII letters, the digits and `_`.
  - Inside the class, ` -\/` is a range from U+0020 to U+002F. So a key may
    contain any of `!"#$%&'()*+,-./`, not only space, dash, slash and dot.
- `Substitutes` (`substitutes.dfy`): the substitution source and key lookup.
  - A source is `Positional` (an argument list) or `Named` (an object's own keys).
  - Lookup models `subs[item]`.
  - The datatype `Arg` separates `undefined`, `null`, arrays, plain objects and
    the other values. `typeof` gives "object" for `null`, arrays and plain
    objects alike; the model still tells them apart because lookup on each
    behaves differently.
  - `Select` classifies the first argument.
- `Scanner` (`scanner.dfy`): the pattern as an explicit scanner.
  - At each position it tries `\{run}`, then `{run}`, then takes one character literally.
  - `run` is the longest stretch of key characters, and it must be followed by `}`.
  - The class holds no brace and no backslash. So the greedy run needs no
    backtracking, and at most one placeholder can open at any position
    (`BracedUnique`).
- `Resolution` (`render.dfy`): the replace pass.
  - `Render` is the recursive form.
  - `RenderByCursor` is an index-based loop that is proved to compute the same string.
  - It also holds the lemmas about the pass's output.
- `Interjector` (`interject.dfy`): the two-stage API.
  - `Interject(template := "")` builds a `Resolver`.
  - `Resolver.Apply(args)` returns an `Outcome`: either `Returned(text)` or `ThrewTypeError`.

Four behaviours of the code that are easy to miss:

- A first argument of type "object" is the source even when more arguments
  follow, and those later arguments are ignored (`LaterArgumentsIgnored`).
- `typeof null` is "object", so a `null` first argument becomes the source.
  The first unescaped placeholder then reads a property of `null` and throws.
  The model returns `ThrewTypeError` exactly when the template has an
  unescaped placeholder.
- The run of key characters is taken greedily. No backtracking is ever
  needed, because `}` is not a key character.
- A named source with an entry for the empty key `""` does replace `{}`.
  Only positional sources always leave `{}` alone.

## Model

| member | source | states |
|---|---|---|
| Keys.Decimal | index.js:15 | The name of array index n is a canonical index string: digits only, and it starts with `0` exactly when n is 0 |
| Keys.DecimalParses | index.js:15 | Reading an index's name back as a number gives the index |
| Keys.IsKeyChar | index.js:10 | Every key character is printable ASCII from space to `z` and none of `[`, `\`, `]`, `^`, so no brace or backslash is one. `Keys.KeyClassListed` lists the class's members |
| Keys.KeyClassListed | index.js:10 | A key character is a word character or one of the sixteen characters from space to `/`; braces and the backslash are not key characters |
| Keys.ParseIndex | index.js:15 | Only `"0"` reads as index 0, so a key with a leading zero such as `"00"` is no index. `Keys.DecimalParses` and `Keys.ParseIndexIsDecimal` state that it inverts `Decimal` |
| Keys.ParseIndexIsDecimal | index.js:15 | Every string read as an index is exactly the name of that index. So `"01"` or `""` never reads as an array element |
| Substitutes.Lookup | index.js:15 | A positional source answers no key that is not a canonical index. A named source answers a key it holds with that key's value, `undefined` included, and answers `undefined` for a key it does not hold |
| Substitutes.LookupIndex | index.js:15 | In a positional source, key `Decimal(n)` with n in range reads the n-th value, `undefined` included |
| Substitutes.LookupOutOfRange | index.js:15 | In a positional source, key `Decimal(n)` with n past the last value reads as `undefined` |
| Substitutes.LookupOnlyIndices | index.js:15 | A positional lookup succeeds only for the name of an in-range index, and yields that index's value |
| Substitutes.Arg.AsSubstitute | index.js:8-15 | An argument's value as a positional substitute is missing exactly when the argument is `undefined`. A `null` argument is substituted as `"null"`, and every other argument as its string form |
| Substitutes.Select | index.js:8 | If the first argument is of type "object", it alone is the source: an array is positional, an object is named, `null` is no source. Otherwise the positional source is the whole argument list, with `undefined` kept as missing |
| Substitutes.ArrayIsSpread | index.js:8 | For items that are strings or `undefined`, one array argument selects the same source as passing its items as separate arguments |
| Substitutes.LaterArgumentsIgnored | index.js:8 | Once the first argument is an object, the arguments after it do not affect the source |
| Scanner.RunEnd | index.js:10 | The key run starting at j is as long as possible: every character in it is a key character, and the character that ends it is not |
| Scanner.RunEndIs | index.js:10 | Those two properties determine the run's end |
| Scanner.BracedUnique | index.js:10 | At most one `{key}` span can open at a position |
| Scanner.CloseAt | index.js:10 | Finds the closing brace exactly when a `{key}` span opens at i. When it finds none, no brace-key-brace span starts there |
| Scanner.MatchAt | index.js:10-13 | One match step. The segment found covers exactly the text it consumes. It is escaped exactly when a backslash is followed by a span, and a placeholder exactly when a span opens here. Its key contains only key characters |
| Scanner.ScanFrom | index.js:10-13 | Scanning from position i splits the rest of the template into segments whose texts concatenate back to it. Each segment is the match attempted exactly where the previous one ended, and every key is a valid key |
| Scanner.Scan | index.js:10-13 | Concatenating the texts of the scanned segments gives back the template, every key is a valid key, and each segment is the match attempted at its own offset |
| Scanner.ScanLeftmost | index.js:10-13 | Segment k is `MatchAt` at its offset: a placeholder exactly where a `{key}` span opens, escaped exactly where a backslash precedes one, so a literal character sits only where neither does |
| Scanner.RunEndShift | index.js:10 | The key run depends only on the text from its start on |
| Scanner.MatchAtShift | index.js:10 | Matching at position d of a string is the same as matching at the start of its suffix from d. This is how the `g` flag resumes after a match |
| Resolution.Emit | index.js:10-15 | A literal segment gives its character; an escaped segment gives `{key}`; a placeholder gives its value when the lookup is defined and `{key}` when it is `undefined` |
| Resolution.Render | index.js:10-16 | The replace pass. `Resolution.RenderBySegments`, `Resolution.RenderStep`, `Resolution.RenderByCursor`, `Resolution.PlainFirst` and the other `First` lemmas below state what it computes |
| Resolution.RenderFromSegments | index.js:10-16 | Rendering the template from position i is the replacements of the segments scanned from i, joined in order |
| Resolution.RenderBySegments | index.js:10-16 | The output is the segments' replacements joined in order. Each piece is template text or a single looked-up value, and no value is scanned again (test.js:110-113) |
| Resolution.RenderStep | index.js:10 | Rendering from position i is the match found at i followed by rendering from the end of that match |
| Resolution.RenderByCursor | index.js:10-16 | A cursor loop over the template computes the same output as the recursive pass |
| Resolution.EscapedFirst | index.js:11-13 | A leading `\{key}` becomes `{key}` for every source, so escaping wins over lookup (test.js:99-102) |
| Resolution.PlaceholderFirst | index.js:15 | A leading `{key}` becomes its value when the value is defined, even when it is `""`. It stays `{key}` when the value is `undefined` or absent (test.js:58-65, 231-234) |
| Resolution.LiteralFirst | index.js:10 | A leading character other than `{` and `\` is copied, and the scan moves on by one character |
| Resolution.PlainFirst | index.js:10 | Text with neither `{` nor `\` is copied as it stands, whatever follows it |
| Resolution.NestedOpenIsLiteral | index.js:10 | If a `{` meets another `{` before any `}`, the first `{` stays literal and the scan resumes right after it |
| Resolution.NestedInnerOnly | index.js:10-15 | In `{pre{k0}mid{k1}post`, only the inner placeholders are resolved, and the outer braces are copied (test.js:301-304) |
| Resolution.EscapeThenLookup | index.js:10-15 | In `\{k}mid{k}post`, the escaped copy keeps its braces, the unescaped copy is looked up, and the plain text around them is copied (test.js:88-91) |
| Resolution.NoBraceRendersAsIs | index.js:10 | A template without `{` renders unchanged for every source |
| Resolution.NoMatchRendersAsIs | index.js:10 | A template in which no `{key}` span opens anywhere renders unchanged for every source |
| Resolution.NoMatchNoLookup | index.js:10 | A template in which no `{key}` span opens has no unescaped placeholder |
| Resolution.NoBraceNoLookup | index.js:10 | A template without `{` contains no unescaped placeholder |
| Resolution.NoValuesNoBackslashUnchanged | index.js:10-15 | If no substitute is present and the template has no backslash, the template renders unchanged |
| Resolution.SourceIrrelevant | index.js:15 | A template with no unescaped placeholder renders the same with every source |
| Interjector.Resolver.Apply | index.js:7-16 | A call throws exactly when the first argument is `null` and the template has an unescaped placeholder. Otherwise it returns the pass over the selected source |
| Interjector.Interject | index.js:5-6 | Builds a resolver over the template; `Interjector.DefaultTemplateIsEmpty` states the default |
| Interjector.DefaultTemplateIsEmpty | index.js:6 | `interject()` resolves to `""` for any arguments (test.js:290-293) |
| Interjector.NoBraceReturnsTemplate | index.js:6-16 | A template without `{` comes back unchanged for any arguments, `null` included (test.js:176-179) |
| Interjector.NoMatchReturnsTemplate | index.js:6-16 | A template in which the pattern never matches comes back unchanged for any arguments |
| Interjector.NoArgumentsUnchanged | index.js:7-16 | Called with no arguments, a template without backslashes comes back unchanged (test.js:165-168) |
| Interjector.NoLookupArgumentsIrrelevant | index.js:8-15 | If a template has no unescaped placeholder, every pair of argument lists gives the same outcome |
| Interjector.ArrayArgumentIsSpread | index.js:8 | For items that are strings or `undefined`, `resolver([a, b])` and `resolver(a, b)` give the same outcome (test.js:8-11, 19-22) |
| Interjector.ObjectArgumentIsNamed | index.js:8 | A leading object is looked up by its own keys, and any later argument is ignored (test.js:30-36) |
| Interjector.EmptyBracesStay | index.js:10-15 | With positional arguments, `{}` is left as it is (test.js:348-351) |
| Interjector.PositionalPlaceholder | index.js:15 | `{n}` becomes the n-th argument's string form. It stays `{n}` when that argument is `undefined` or when there is no n-th argument (test.js:54-67, 183-193) |

## Left out

- Conversion of substitute values to strings is not modelled. `replace`
  applies ToString to each value the replacer returns; the model takes the
  string forms of numbers, booleans, `NaN`, `Infinity`, dates, functions and
  objects as given, so values arrive already as strings.
- The type errors of that conversion are not modelled. ToString throws a
  `TypeError` for a Symbol substitute (`interject("{0}")(Symbol())`) and for an
  object with no usable `toString`, such as a null-prototype object. So the
  model's `ThrewTypeError` for a `null` source is not the only way a call can
  throw; `Arg` has no Symbol case and every object carries a string form.
  - `Arg.text` carries the string form an object argument takes when it is not the first argument.
  - A function argument is a `Primitive` carrying its string form.
- Lookups that reach beyond an array's elements or an object's own keys are
  not modelled, and `Lookup` answers `undefined` for them. Examples are an
  array's `length` (`{length}`) and inherited properties such as `{constructor}`
  or `{toString}`.
- A template that is not a string is not modelled; the model's template is
  always a string. Most non-string templates (numbers, `null`, arrays, plain
  objects) have no `replace` method and throw there. A `String` object or an
  object with its own `replace` method does not throw, and behaves as its
  `replace` does.
- UTF-16 is not modelled: Dafny characters are Unicode scalar values, while
  JavaScript strings are UTF-16 code units.
  - No key character, brace or backslash lies outside ASCII, so both
    scanners split a template the same way.
  - Lengths of non-BMP text differ.
- The general regular-expression engine is not modelled. The explicit scanner
  stands in for this one pattern.
- `$`-patterns in replacement strings are not modelled. They do not arise,
  because the code passes a replacer function, whose return value is inserted
  literally.
- Concurrency and re-entrancy need no model: `Render` and `Apply` are pure
  functions of their arguments.
