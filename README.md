# markup.py in Dafny

`markup.py` turns a small markdown dialect into HTML. The text is wrapped in
newlines and run through a fixed list of regular-expression rewrite rules.
Some rules hand their match to a callback that renders HTML directly: a
heading, a list item, a block-quote line, a paragraph, a term definition or an
inline image. Others render a fragment that later rules must not touch: a code
block, an `<svg>`/`<pre>`/`<style>`/`<script>` region, or an inlined source
file. `preserve` stores such a fragment in the module-level list
`preserved_blobs` and leaves the placeholder `{k}` in the text. When the rules
are done, the text is stripped, `str.format` puts every fragment back, and a
newline is appended.

The project models this in six modules:

- `Results` (results.dfy): the exceptions the code can raise, as an `Error`
  value inside a `Result`.
- `Text` (text.dfy): the Python string operations the code relies on:
  - `strip` and `splitlines`, with Python's whitespace and line-break sets;
  - `lower`, `endswith` and `replace`;
  - decimal formatting of integers.
- `Slug` (slug.dfy):
  - the id translation table and the loops that build it;
  - `str.translate` through the table.
- `Vault` (vault.dfy):
  - `preserved_blobs` as the class `BlobVault`, with `Clear` and `Preserve`;
  - the final `str.format` pass, restricted to placeholders and `{{`/`}}`
    escapes.
- `Callbacks` (callbacks.dfy): every rule callback. `codearea`, `verbatim` and
  `inline` are methods on the vault, because they preserve fragments.
- `Pipeline` (pipeline.dfy): `markup` itself. It is a function over an
  abstract list of rules, and a method that clears the vault and runs the
  rules in order.

## Model

| member | source | states |
|---|---|---|
| Slug.SlugOf | markup.py:11-16 | A character has a table entry exactly when it is one of `_ - space /` or an ASCII letter or digit. Separators become `-`; letters and digits become their lower case. |
| Slug.BuildSlugTable | markup.py:11-16 | The filling loops yield a table whose keys are exactly the characters with an entry, each mapped to that entry. |
| Slug.Slugify | markup.py:65 | The id is no longer than the heading text and uses only `a-z`, `0-9` and `-`. |
| Slug.SlugifyAppend | markup.py:65 | Translation works character by character, so the translation of a concatenation is the concatenation of the translations. |
| Slug.SlugifyFixedPoints | markup.py:11-16 | A string is left unchanged by the translation if and only if it is already a slug. |
| Slug.SlugifyIdempotent | markup.py:65 | Translating an id again changes nothing. |
| Slug.SlugifyIgnoresCase | markup.py:14-16 | Headings that differ only in ASCII letter case get the same id. |
| Vault.BlobVault.constructor | markup.py:92 | The vault starts empty. |
| Vault.BlobVault.Clear | markup.py:126 | Clearing leaves no fragment behind. |
| Vault.BlobVault.Preserve | markup.py:93-95 | Exactly one fragment is appended at the end and earlier fragments are untouched. The result is `{` + the old length in decimal + `}`. |
| Vault.Token | markup.py:95 | A placeholder is `{digits}`, and its digits read back as the fragment's index. |
| Vault.TokenInjective | markup.py:95 | Distinct indices give distinct placeholders. |
| Vault.PreserveInOrder | markup.py:92-95 | After a clear, the k-th fragment preserved gets placeholder `{k}`, and the vault holds exactly the fragments in order. |
| Vault.Resolve | markup.py:130 | `str.format(*preserved_blobs)` read in one left-to-right scan. Its own contract: an `IndexOutOfRange(k)` error is raised only when k is at or past the vault's length. Its partners state each branch after brace-free text: `ResolveBraceFree` (plain text), `ResolveToken` (`{k}`), `ResolveEscapes` (`{{`, `}}`), `ResolveSingleBrace` and `ResolveBadField` (errors). `ResolveRender` ties the whole scan to the reference expansion. |
| Vault.ResolveBraceFree | markup.py:130 | Text without braces passes through `format` unchanged. |
| Vault.ResolveToken | markup.py:130 | `{k}` is replaced by fragment k. An index at or past the vault's length is an `IndexOutOfRange` error, not a silent drop. |
| Vault.ResolveEscapes | markup.py:130 | After brace-free text, `{{` becomes `{` and `}}` becomes `}`, and the scan goes on behind them. |
| Vault.ResolveSingleBrace | markup.py:130 | A `}` that is not doubled is a `SingleBrace` error, as Python's format raises on a single `}`. |
| Vault.ResolveBadField | markup.py:130 | A `{` that opens neither `{{` nor a `{digits}` field is an `UnsupportedField` error. |
| Vault.Expand | markup.py:130 | The reference meaning of a document of text and placeholders succeeds exactly when every placeholder is within the vault. |
| Vault.ResolveRender | markup.py:130 | When the text between placeholders has no braces, resolving equals the reference expansion. Each placeholder is replaced once, and inserted fragments are never rescanned. |
| Callbacks.Blockquote | markup.py:35-39 | For a line without newlines, `\n<blockquote>` opens the output if and only if `before` is a newline. `</blockquote>` closes it if and only if `after` is a newline; otherwise it ends in `\n<br/>`. |
| Callbacks.QuoteRun | markup.py:104 | The text one `re.sub` pass of the indented-line rule leaves for a run of consecutive indented lines: one `blockquote` result per line, each told the character before and after its newline. It has no contract of its own; `QuoteRunShape` states its shape. |
| Callbacks.QuoteRunOfCallbacks | markup.py:35-39 | A run is the `blockquote` callback's result for its first line, followed by the run of the remaining lines. |
| Callbacks.QuoteRunShape | markup.py:35-39 | A run of consecutive indented lines gives one opening (only if preceded by a blank line), the lines joined by `\n<br/>`, and one closing (only if followed by a blank line). |
| Callbacks.QuoteBetweenBlankLines | markup.py:35-39 | Indented lines with a blank line on each side make exactly one `<blockquote>` element. |
| Callbacks.ListItemBounds | markup.py:69-85 | An item starts with the list's opening tag if and only if `before` is a newline. It ends with the closing tag if and only if `after` is a newline. |
| Callbacks.UnorderedListItem | markup.py:81-85 | `<ul>` opens the item if and only if `before` is a newline, and `</ul>` closes it if and only if `after` is a newline. |
| Callbacks.OrderedListItem | markup.py:69-73 | The same with `<ol>`. |
| Callbacks.ListRun | markup.py:105-106 | The text one `re.sub` pass of a list rule leaves for a run of consecutive item lines: one item result per line. It has no contract of its own; `ListRunShape` states its shape. |
| Callbacks.ListRunOfCallbacks | markup.py:69-85 | A `ul` run is the `unordered_list_item` result for its first line followed by the rest, and an `ol` run the same with `ordered_list_item`. |
| Callbacks.ListRunShape | markup.py:69-85 | A run of item lines gives at most one opening tag and one closing tag, with exactly one `<li>text</li>\n` per line, in order. |
| Callbacks.ListBetweenBlankLines | markup.py:69-85 | Items with a blank line on each side make exactly one list element. |
| Callbacks.Description | markup.py:49-52 | `description`: the term in `<dt>`, then the definition in `<dd>` with `\n    ` replaced by `\n`. It has no contract of its own; `DescriptionDedents` states what it does to an indented definition. |
| Callbacks.DescriptionDedents | markup.py:49-52 | A definition whose continuation lines were indented by four spaces is emitted with that indentation removed, inside `<dt>…</dt>\n<dd>\n…\n</dd>`. |
| Callbacks.Heading | markup.py:63-67 | `heading`: `<hN id="slug">text</hN>` with N the number of `#`s. It has no contract of its own; `HeadingRoundTrip` reads its output back into level, id and text. |
| Callbacks.HeadingRoundTrip | markup.py:63-67 | The heading element reads back as level = number of `#`s, id = slug of the text, and the text unchanged. |
| Callbacks.Paragraph | markup.py:75-79 | A line is returned unchanged if and only if it starts with `<` or `{`. Otherwise it is wrapped as `<p>line</p>`. |
| Callbacks.ParagraphIdempotent | markup.py:75-79 | Applying the callback to its own output changes nothing. |
| Callbacks.ParagraphKeepsPlaceholder | markup.py:75-79 | A line that starts with a placeholder is never wrapped. |
| Callbacks.CodeLayout | markup.py:41-46 | Whitespace-only code is an error (Python's `max` of an empty sequence). Otherwise: the code is the stripped text; rows is its number of lines (at least one); cols is one more than the longest line, which some line attains. |
| Callbacks.RenderTextarea | markup.py:45-46 | The `%` template of the text area, with rows, cols and the code filled in. It has no contract of its own; `Codearea` states that this rendering of `CodeLayout`'s result is what gets preserved. |
| Callbacks.CodeRows | markup.py:43 | For code whose only line breaks are `\n`, rows is one more than the number of newlines. |
| Callbacks.Codearea | markup.py:41-47 | On error nothing is preserved. Otherwise exactly the rendered text area is appended, and its placeholder is returned. |
| Callbacks.Verbatim | markup.py:87-90 | The region, with its tags rebuilt, is appended to the vault, and its placeholder is returned. |
| Callbacks.ResourceKind | markup.py:56-58 | The suffix dispatch of `inline`, tested on the lower-cased path with no dot required: image suffixes first, then `py`/`js`, else unsupported. It has no contract of its own; `ResourceKindIgnoresCase` and `Inline` state its use. |
| Callbacks.ResourceKindIgnoresCase | markup.py:56-58 | The suffix dispatch gives the same result for a path and its lower-cased form. |
| Callbacks.Inline | markup.py:54-61 | An image suffix gives `<img src=… title=…/>` and preserves nothing. `py`/`js` gives the code-area result for the file's text, and a missing file is an error. Any other suffix is a `CannotInline` error and preserves nothing. |
| Pipeline.Apply | markup.py:128-129 | Running the rules only appends to the vault; fragments held before keep their places. |
| Pipeline.ApplyConcat | markup.py:128-129 | The rule loop composes: running a list is running its first part, then the rest from where the first part stopped. After an exception nothing else runs. |
| Pipeline.ApplyPreservesNothing | markup.py:128-129 | Rules that preserve nothing leave the vault as it was. |
| Pipeline.Convert | markup.py:125-130 | The vault seen by resolution is exactly what this conversion's rules preserved. An exception from a rule is the result. A successful result ends in a newline. |
| Pipeline.ConvertExpands | markup.py:130 | If the rules leave brace-free text and placeholders, the output is the reference expansion plus `\n`. It fails exactly when a placeholder is past the vault. |
| Pipeline.StripWrapped | markup.py:127-130 | The newlines wrapped around the input are stripped again. |
| Pipeline.ConvertPlainText | markup.py:125-130 | With no rules, text without braces comes out stripped, followed by one newline, and nothing is preserved. |
| Pipeline.Markup | markup.py:125-130 | The method clears the vault, runs the rules in order while preserving what each pass preserved, and resolves. Its result and the final vault equal `Convert`. |
| Text.Strip | markup.py:42 | The result is empty exactly when the text is all whitespace. Otherwise it is the text between its leading and trailing whitespace, and it starts and ends with a non-space character. |
| Text.StripIdempotent | markup.py:42 | Stripping twice is stripping once. |
| Text.SplitLines | markup.py:43-44 | No lines come only from the empty string, and no line contains a line break. |
| Text.SplitJoin | markup.py:43-44 | A non-empty list of lines without breaks whose last line is non-empty, joined with `\n`, splits back into the same lines. (`["a", ""]` joins to `"a\n"`, which splits to `["a"]`.) |
| Text.JoinSplit | markup.py:43 | A non-empty text with only `\n` breaks and no final newline splits into `count('\n') + 1` lines, which join back into the text. (The empty text splits into no lines.) |
| Text.MaxLen | markup.py:44 | The result bounds every line's length and is attained by one line. |
| Text.StartsWith | markup.py:77 | `line.startswith(p)`: the text begins with `p`. It has no contract of its own; `Paragraph` states its use. |
| Text.EndsWith | markup.py:56 | `s.endswith(p)`: the text finishes with `p`. It has no contract of its own; `Inline` and `ResourceKind` use it for the suffix tests. |
| Text.Lower | markup.py:56 | `src.lower()` on ASCII: the same length, every letter `A-Z` lowered by 32 code points and every other character kept. |
| Text.Replace | markup.py:51 | `str.replace`: a left-to-right scan replacing non-overlapping occurrences. It has no contract of its own; `DedentIndent` states what it does for the replacement `description` makes. |
| Text.Dedent | markup.py:51 | `inner.replace('\n    ', '\n')`. It has no contract of its own; `DedentIndent` proves that it undoes a four-space indent. |
| Text.DedentIndent | markup.py:51 | Removing four spaces after each newline undoes adding them. |
| Text.Decimal | markup.py:95 | `%s` of a non-negative integer: a non-empty string of ASCII digits. `ParseDecimal` reads it back. |
| Text.ParseDecimal | markup.py:95 | The decimal rendering of a number reads back as that number. |
| Text.DecimalInjective | markup.py:95 | Distinct numbers render differently. |

## Left out

- `to_html` (markup.py:132-140) is not modelled. It does file I/O, the argument `assert`s and the template splice.
- The `unittest` self-test (markup.py:143-158) is not modelled. It compares against fixture files that are not part of this model.
- The regular expressions of the rule table (markup.py:97-123) and `re.sub`'s scanning are left abstract. A rule is any function from the text and the vault size to a rewritten text and the fragments it preserved.
  - The simple template substitutions (markup.py:20-32) are therefore not modelled separately.
  - The runs of list and quote lines are modelled on given capture groups, as the rule would see them.
- `inline` reads the file with `open(src).read()` (markup.py:59). The model passes the file contents in as a map from paths to texts, and a path missing from the map is a `FileNotFound` error.
- The `defaultdict` mechanics of the slug table (markup.py:11) are left out. The table is read as a total function with the empty string for missing characters.
- Vault.Resolve: only `{digits}` fields and the `{{`/`}}` escapes are modelled.
  - Any other field (auto-numbered `{}`, names, attributes, conversions, format specs) is an `UnsupportedField` error.
  - Python would instead number it, look it up or format it.
  - Digits are ASCII only.
- Callbacks.ResourceKind and Slug.SlugifyIgnoresCase: `lower` is modelled on ASCII letters only. Python lowers all of Unicode.
- Text.Strip and Text.SplitLines use Python's whitespace and line-break sets as fixed character lists, following the Unicode database at the time of writing.
- The slug table maps only the space among whitespace characters to `-`, because the code lists `_- /` explicitly. Tabs and other whitespace are dropped. The model follows the code.
- The quote and list rules (markup.py:104-106) miss a run on the source's first line, and miss one on its last line when the source does not end in a newline, although markup.py:127 adds the wrapping newlines so that edge rules can match. Their lookbehind `(?<=(\s|\S))` needs a character before the newline that starts the line. The source's first line is preceded only by the added newline, which has nothing before it. Their lookahead `(?=\n(\s|\S))` needs a character after the newline that ends the line. When the source ends in a newline, that character exists: `"x\n\n- a\n- b\n"` becomes `"\nx\n\n- a\n- b\n\n"`, and `- b` closes the list. When the source does not end in a newline, the last line is followed only by the added newline, and no character comes after it. `Callbacks.QuoteRun` and `Callbacks.ListRun` take `before` and `after` as given, so they describe runs that these checks let through. This edge behaviour lives in the regular expressions, which are not modelled.
- Python's `%s` formatting of the row and column counts is modelled as plain decimal rendering, which agrees for non-negative integers.
