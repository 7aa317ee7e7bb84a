/** The replacement functions the rule table hands to `re.sub`; each one
    receives the capture groups of one match. */
module Callbacks {
  import opened Text
  import opened Slug
  import opened Results
  import opened Vault

  predicate NoNewline(s: string) {
    forall i :: 0 <= i < |s| ==> s[i] != '\n'
  }

  /** A line captured by `(.+)`: at least one character, and no newline. */
  predicate IsLine(s: string) {
    s != [] && NoNewline(s)
  }

  // ---------------------------------------------------------------------------
  // blockquote: one indented line; `before` is the character ahead of its
  // newline, `after` the character behind the newline that ends it

  /** What a quote puts ahead of its first line. */
  function QuoteOpen(before: string): string {
    if before == "\n" then "\n<blockquote>" else ""
  }

  /** What a quote puts behind a line: the end of the quote, or a line break. */
  function QuoteClose(after: string): string {
    if after == "\n" then "</blockquote>" else "\n<br/>"
  }

  /** One quoted line. */
  function QuoteLine(before: string, text: string, after: string): string {
    QuoteOpen(before) + text + QuoteClose(after)
  }

  /** `blockquote`: opens the quote exactly when the line before is blank,
      closes it exactly when the line after is blank, and otherwise ends the
      line with a line break. */
  function Blockquote(before: string, text: string, after: string): (r: string)
    ensures NoNewline(text) ==> (StartsWith(r, "\n<blockquote>") <==> before == "\n")
    ensures EndsWith(r, "</blockquote>") <==> after == "\n"
    ensures after != "\n" ==> EndsWith(r, "\n<br/>")
  {
    BlockquoteBounds(before, text, after);
    QuoteLine(before, text, after)
  }

  lemma BlockquoteBounds(before: string, text: string, after: string)
    ensures var r := QuoteOpen(before) + text + QuoteClose(after);
            && (NoNewline(text) ==> (StartsWith(r, "\n<blockquote>") <==> before == "\n"))
            && (EndsWith(r, "</blockquote>") <==> after == "\n")
            && (after != "\n" ==> EndsWith(r, "\n<br/>"))
  {
    var rest := text + QuoteClose(after);
    if NoNewline(text) {
      if text != [] {
        assert rest[0] == text[0];
        NotStartsWith(rest, "\n<blockquote>");
      } else {
        assert rest == QuoteClose(after);
        assert rest == "</blockquote>" || |rest| < 13;
        NotStartsWith(rest, "\n<blockquote>");
      }
      QuoteOpenBound(before, rest);
    }
    assert QuoteOpen(before) + text + QuoteClose(after) == QuoteOpen(before) + rest;
    QuoteCloseBound(QuoteOpen(before) + text, after);
  }

  /** A text shorter than a prefix, or differing from it in its first
      character, does not start with it. */
  lemma NotStartsWith(s: string, prefix: string)
    requires prefix != []
    requires |s| < |prefix| || s[0] != prefix[0]
    ensures !StartsWith(s, prefix)
  {
    if |prefix| <= |s| {
      assert s[..|prefix|][0] == s[0];
    }
  }

  /** The quote opens a line exactly when the line before is blank. */
  lemma QuoteOpenBound(before: string, rest: string)
    requires !StartsWith(rest, "\n<blockquote>")
    ensures StartsWith(QuoteOpen(before) + rest, "\n<blockquote>") <==> before == "\n"
  {
    var r := QuoteOpen(before) + rest;
    if before == "\n" {
      assert r[..13] == "\n<blockquote>";
    } else {
      assert r == rest;
    }
  }

  /** The quote closes behind a line exactly when the line after is blank;
      otherwise the line ends in a line break. */
  lemma QuoteCloseBound(front: string, after: string)
    ensures EndsWith(front + QuoteClose(after), "</blockquote>") <==> after == "\n"
    ensures after != "\n" ==> EndsWith(front + QuoteClose(after), "\n<br/>")
  {
    var r := front + QuoteClose(after);
    if after == "\n" {
      assert r[|r| - 13..] == "</blockquote>";
    } else {
      assert r[|r| - 6..] == "\n<br/>";
      assert r[|r| - 2] == '/';
    }
  }

  /** What the blockquote rule makes of a run of consecutive indented lines
      `texts`: `before` is the character ahead of the run, `leads[i]` the first
      character of line i + 1, and `after` the character behind the run. */
  function QuoteRun(texts: seq<string>, leads: string, before: string, after: string): string
    requires texts != [] && |leads| == |texts| - 1
    requires forall i :: 0 <= i < |texts| ==> IsLine(texts[i])
    decreases |texts|
  {
    if |texts| == 1 then QuoteLine(before, texts[0], after)
    else
      var first := texts[0];
      assert IsLine(first);
      QuoteLine(before, first, [leads[0]]) + QuoteRun(texts[1..], leads[1..], [first[|first| - 1]], after)
  }

  /** A run is the `blockquote` results of its lines, one after the other. */
  lemma QuoteRunOfCallbacks(texts: seq<string>, leads: string, before: string, after: string)
    requires texts != [] && |leads| == |texts| - 1
    requires forall i :: 0 <= i < |texts| ==> IsLine(texts[i])
    ensures |texts| == 1 ==> QuoteRun(texts, leads, before, after) == Blockquote(before, texts[0], after)
    ensures |texts| > 1 ==>
              (IsLine(texts[0]) && QuoteRun(texts, leads, before, after)
                 == Blockquote(before, texts[0], [leads[0]])
                    + QuoteRun(texts[1..], leads[1..], [texts[0][|texts[0]| - 1]], after))
  {
    assert IsLine(texts[0]);
  }

  /** Lines joined by line breaks. */
  function JoinBreaks(texts: seq<string>): string
    requires texts != []
  {
    if |texts| == 1 then texts[0] else texts[0] + "\n<br/>" + JoinBreaks(texts[1..])
  }

  /** A run of indented lines becomes one quote: it opens only when a blank
      line comes before the run, the lines inside are joined by line breaks,
      and it closes only when a blank line follows (otherwise it ends in a
      line break). */
  lemma {:induction false} QuoteRunShape(texts: seq<string>, leads: string, before: string, after: string)
    requires texts != [] && |leads| == |texts| - 1
    requires forall i :: 0 <= i < |texts| ==> IsLine(texts[i])
    requires NoNewline(leads)
    ensures QuoteRun(texts, leads, before, after) == QuoteOpen(before) + JoinBreaks(texts) + QuoteClose(after)
    decreases |texts|
  {
    if |texts| > 1 {
      var first := texts[0];
      var rest := texts[1..];
      assert forall i :: 0 <= i < |rest| ==> rest[i] == texts[i + 1];
      QuoteRunUnfold(texts, leads, before, after);
      var inner := [first[|first| - 1]];
      var tailRun := QuoteRun(rest, leads[1..], inner, after);
      QuoteRunShape(rest, leads[1..], inner, after);
      var lines := JoinBreaks(rest);
      QuoteLineThenRest(before, first, [leads[0]], lines, after);
      RegroupQuote(QuoteRun(texts, leads, before, after), QuoteLine(before, first, [leads[0]]), tailRun,
                   lines, QuoteOpen(before), QuoteClose(after), first, JoinBreaks(texts));
    }
  }

  /** One step of a run: its first line, then the run of the other lines. */
  lemma QuoteRunUnfold(texts: seq<string>, leads: string, before: string, after: string)
    requires |texts| > 1 && |leads| == |texts| - 1
    requires forall i :: 0 <= i < |texts| ==> IsLine(texts[i])
    ensures IsLine(texts[0]) && QuoteOpen([texts[0][|texts[0]| - 1]]) == []
    ensures QuoteRun(texts, leads, before, after)
         == QuoteLine(before, texts[0], [leads[0]]) + QuoteRun(texts[1..], leads[1..], [texts[0][|texts[0]| - 1]], after)
    ensures JoinBreaks(texts) == texts[0] + "\n<br/>" + JoinBreaks(texts[1..])
  {
    assert IsLine(texts[0]);
  }

  lemma RegroupQuote(run: string, head: string, tailRun: string, lines: string, open: string,
                     close: string, first: string, all: string)
    requires run == head + tailRun
    requires tailRun == [] + lines + close
    requires head + (lines + close) == open + (first + "\n<br/>" + lines) + close
    requires all == first + "\n<br/>" + lines
    ensures run == open + all + close
  {
    assert tailRun == lines + close;
  }

  /** A quoted line that does not end the quote, followed by the rest of it. */
  lemma QuoteLineThenRest(before: string, first: string, lead: string, lines: string, after: string)
    requires lead != "\n"
    ensures QuoteLine(before, first, lead) + (lines + QuoteClose(after))
         == QuoteOpen(before) + (first + "\n<br/>" + lines) + QuoteClose(after)
  {
  }

  /** Indented lines with a blank line on either side make exactly one quote. */
  lemma {:induction false} QuoteBetweenBlankLines(texts: seq<string>, leads: string)
    requires texts != [] && |leads| == |texts| - 1
    requires forall i :: 0 <= i < |texts| ==> IsLine(texts[i])
    requires NoNewline(leads)
    ensures QuoteRun(texts, leads, "\n", "\n") == "\n<blockquote>" + JoinBreaks(texts) + "</blockquote>"
  {
    QuoteRunShape(texts, leads, "\n", "\n");
  }

  // ---------------------------------------------------------------------------
  // list items

  /** What a list puts ahead of an item: the opening tag, or nothing. */
  function ListOpen(tag: string, before: string): string {
    if before == "\n" then "\n<" + tag + ">\n" else ""
  }

  /** What a list puts behind an item: the closing tag, or nothing. */
  function ListClose(tag: string, after: string): string {
    if after == "\n" then "</" + tag + ">" else ""
  }

  /** One list item; `tag` is `ul` or `ol`. */
  function ListItem(tag: string, before: string, text: string, after: string): string {
    ListOpen(tag, before) + "<li>" + text + "</li>\n" + ListClose(tag, after)
  }

  lemma ListItemBounds(tag: string, before: string, text: string, after: string)
    ensures StartsWith(ListItem(tag, before, text, after), "\n<" + tag + ">\n") <==> before == "\n"
    ensures EndsWith(ListItem(tag, before, text, after), "</" + tag + ">") <==> after == "\n"
  {
    var r := ListItem(tag, before, text, after);
    assert before != "\n" ==> r[0] == '<';
    assert after != "\n" ==> r[|r| - 1] == '\n';
  }

  /** `unordered_list_item`: opens `<ul>` exactly when the line before is
      blank, and closes it exactly when the line after is blank. */
  function UnorderedListItem(before: string, text: string, after: string): (r: string)
    ensures StartsWith(r, "\n<ul>\n") <==> before == "\n"
    ensures EndsWith(r, "</ul>") <==> after == "\n"
  {
    assert "\n<" + "ul" + ">\n" == "\n<ul>\n" && "</" + "ul" + ">" == "</ul>";
    ListItemBounds("ul", before, text, after);
    ListItem("ul", before, text, after)
  }

  /** `ordered_list_item`: the same with `<ol>`. */
  function OrderedListItem(before: string, text: string, after: string): (r: string)
    ensures StartsWith(r, "\n<ol>\n") <==> before == "\n"
    ensures EndsWith(r, "</ol>") <==> after == "\n"
  {
    assert "\n<" + "ol" + ">\n" == "\n<ol>\n" && "</" + "ol" + ">" == "</ol>";
    ListItemBounds("ol", before, text, after);
    ListItem("ol", before, text, after)
  }

  /** What a list rule makes of a run of consecutive item lines (the
      arguments as for QuoteRun). */
  function ListRun(tag: string, texts: seq<string>, leads: string, before: string, after: string): string
    requires texts != [] && |leads| == |texts| - 1
    requires forall i :: 0 <= i < |texts| ==> IsLine(texts[i])
    decreases |texts|
  {
    if |texts| == 1 then ListItem(tag, before, texts[0], after)
    else
      var first := texts[0];
      assert IsLine(first);
      ListItem(tag, before, first, [leads[0]]) + ListRun(tag, texts[1..], leads[1..], [first[|first| - 1]], after)
  }

  /** A run of `- ` lines is the `unordered_list_item` results of its lines,
      and a run of numbered lines the `ordered_list_item` results. */
  lemma ListRunOfCallbacks(texts: seq<string>, leads: string, before: string, after: string)
    requires texts != [] && |leads| == |texts| - 1
    requires forall i :: 0 <= i < |texts| ==> IsLine(texts[i])
    ensures |texts| == 1 ==> ListRun("ul", texts, leads, before, after) == UnorderedListItem(before, texts[0], after)
    ensures |texts| == 1 ==> ListRun("ol", texts, leads, before, after) == OrderedListItem(before, texts[0], after)
    ensures |texts| > 1 ==>
              (IsLine(texts[0]) && ListRun("ul", texts, leads, before, after)
                 == UnorderedListItem(before, texts[0], [leads[0]])
                    + ListRun("ul", texts[1..], leads[1..], [texts[0][|texts[0]| - 1]], after))
    ensures |texts| > 1 ==>
              (IsLine(texts[0]) && ListRun("ol", texts, leads, before, after)
                 == OrderedListItem(before, texts[0], [leads[0]])
                    + ListRun("ol", texts[1..], leads[1..], [texts[0][|texts[0]| - 1]], after))
  {
    assert IsLine(texts[0]);
  }

  /** An item that does not close the list, followed by the rest of the list. */
  lemma ListItemThenRest(tag: string, before: string, first: string, lead: string, items: string, after: string)
    requires lead != "\n"
    ensures ListItem(tag, before, first, lead) + (items + ListClose(tag, after))
         == ListOpen(tag, before) + ("<li>" + first + "</li>\n" + items) + ListClose(tag, after)
  {
  }

  /** One `<li>` element per item, in order. */
  function Items(texts: seq<string>): string {
    if texts == [] then [] else "<li>" + texts[0] + "</li>\n" + Items(texts[1..])
  }

  /** A run of item lines becomes one list: a single opening tag when a blank
      line comes before the run, one `<li>` per line, and a single closing tag
      when a blank line follows. */
  lemma {:induction false} ListRunShape(tag: string, texts: seq<string>, leads: string, before: string, after: string)
    requires texts != [] && |leads| == |texts| - 1
    requires forall i :: 0 <= i < |texts| ==> IsLine(texts[i])
    requires NoNewline(leads)
    ensures ListRun(tag, texts, leads, before, after) == ListOpen(tag, before) + Items(texts) + ListClose(tag, after)
    decreases |texts|
  {
    var first := texts[0];
    ItemsCons(texts);
    if |texts| == 1 {
      assert Items(texts[1..]) == [];
    } else {
      assert IsLine(first);
      var rest := texts[1..];
      assert forall i :: 0 <= i < |rest| ==> rest[i] == texts[i + 1];
      var inner := [first[|first| - 1]];
      assert ListOpen(tag, inner) == [];
      ListRunShape(tag, rest, leads[1..], inner, after);
      var tailRun := ListRun(tag, rest, leads[1..], inner, after);
      var close := ListClose(tag, after);
      assert tailRun == [] + Items(rest) + close;
      assert ListRun(tag, texts, leads, before, after) == ListItem(tag, before, first, [leads[0]]) + tailRun;
      ListItemThenRest(tag, before, first, [leads[0]], Items(rest), after);
      RegroupRun(ListRun(tag, texts, leads, before, after), ListItem(tag, before, first, [leads[0]]), tailRun,
            Items(rest), close, ListOpen(tag, before), "<li>" + first + "</li>\n", Items(texts));
    }
  }

  /** The first item of a list, then the others. */
  lemma ItemsCons(texts: seq<string>)
    requires texts != []
    ensures Items(texts) == "<li>" + texts[0] + "</li>\n" + Items(texts[1..])
  {
  }

  /** The regrouping step of ListRunShape, on plain strings. */
  lemma RegroupRun(run: string, head: string, tailRun: string, items: string, close: string,
              open: string, li: string, all: string)
    requires run == head + tailRun && tailRun == [] + items + close
    requires head + (items + close) == open + (li + items) + close
    requires all == li + items
    ensures run == open + all + close
  {
    assert tailRun == items + close;
  }

  /** Item lines with a blank line on either side make exactly one list:
      one opening tag, one `<li>` per line, one closing tag. */
  lemma {:induction false} ListBetweenBlankLines(tag: string, texts: seq<string>, leads: string)
    requires texts != [] && |leads| == |texts| - 1
    requires forall i :: 0 <= i < |texts| ==> IsLine(texts[i])
    requires NoNewline(leads)
    ensures ListRun(tag, texts, leads, "\n", "\n") == "\n<" + tag + ">\n" + Items(texts) + "</" + tag + ">"
  {
    ListRunShape(tag, texts, leads, "\n", "\n");
  }

  // ---------------------------------------------------------------------------
  // description

  /** `description`: a term and its definition; the definition's continuation
      lines lose four spaces of indentation. */
  function Description(term: string, inner: string): string {
    "<dt>" + term + "</dt>\n<dd>\n" + Dedent(inner) + "\n</dd>"
  }

  /** A definition whose lines after the first were indented by four spaces
      appears in the output with that indentation removed. */
  lemma {:induction false} DescriptionDedents(term: string, body: string)
    ensures Description(term, Indent(body)) == "<dt>" + term + "</dt>\n<dd>\n" + body + "\n</dd>"
  {
    DedentIndent(body);
  }

  // ---------------------------------------------------------------------------
  // heading

  /** `heading`: the level is the number of `#`s, the id is the slug of the
      text, and the text is kept. */
  function Heading(hashes: string, text: string): string {
    var n := Decimal(|hashes|);
    "<h" + n + " id=\"" + Slugify(text) + "\">" + text + "</h" + n + ">"
  }

  datatype HeadingParts = HeadingParts(level: nat, id: string, text: string)

  /** Index of the first `"` in `s`, or `|s|` when there is none. */
  function QuoteAt(s: string): (i: nat)
    ensures i <= |s|
    ensures i < |s| ==> s[i] == '"'
  {
    if s == [] || s[0] == '"' then 0 else 1 + QuoteAt(s[1..])
  }

  lemma {:induction false} QuoteAtSlug(slug: string, rest: string)
    requires IsSlug(slug) && rest != [] && rest[0] == '"'
    ensures QuoteAt(slug + rest) == |slug|
  {
    if slug == [] {
      assert slug + rest == rest;
    } else {
      assert IsSlugChar(slug[0]);
      assert (slug + rest)[1..] == slug[1..] + rest;
      QuoteAtSlug(slug[1..], rest);
    }
  }

  /** Reads a heading element back: its level, its id and its text. */
  function ParseHeading(r: string): Option<HeadingParts> {
    if !StartsWith(r, "<h") then None
    else
      var a := r[2..];
      var n := DigitRun(a);
      var digits := a[..n];
      var b := a[n..];
      if n == 0 || !StartsWith(b, " id=\"") then None
      else
        var c := b[5..];
        var q := QuoteAt(c);
        var d := c[q..];
        if !StartsWith(d, "\">") then None
        else
          var body := d[2..];
          var close := "</h" + (digits + ">");
          if !EndsWith(body, close) then None
          else Some(HeadingParts(ParseDigits(digits), c[..q], body[..|body| - |close|]))
  }

  /** The heading element, with its concatenation grouped from the right. */
  lemma HeadingGrouped(n: string, slug: string, text: string)
    ensures "<h" + n + " id=\"" + slug + "\">" + text + "</h" + n + ">"
         == "<h" + (n + (" id=\"" + (slug + ("\">" + (text + ("</h" + (n + ">")))))))
  {
  }

  /** A heading element reads back as level = number of `#`s, id = slug of
      the text, and the text itself. */
  lemma {:induction false} HeadingRoundTrip(hashes: string, text: string)
    ensures ParseHeading(Heading(hashes, text)) == Some(HeadingParts(|hashes|, Slugify(text), text))
  {
    var n := Decimal(|hashes|);
    var slug := Slugify(text);
    var close := "</h" + (n + ">");
    var r := Heading(hashes, text);
    var c := slug + ("\">" + (text + close));
    var b := " id=\"" + c;
    var a := n + b;
    HeadingGrouped(n, slug, text);
    assert r == "<h" + a;
    assert r[2..] == a;
    DigitRunPrefix(n, b);
    assert a[..|n|] == n && a[|n|..] == b;
    assert b[5..] == c;
    QuoteAtSlug(slug, "\">" + (text + close));
    assert c[..|slug|] == slug;
    assert c[|slug|..] == "\">" + (text + close);
    assert ("\">" + (text + close))[2..] == text + close;
    assert (text + close)[..|text|] == text;
    ParseDecimal(|hashes|);
    assert StartsWith(r, "<h");
    assert StartsWith(b, " id=\"");
    var d := c[|slug|..];
    assert StartsWith(d, "\">");
    var body := d[2..];
    assert body == text + close;
    assert EndsWith(body, close);
    assert body[..|body| - |close|] == text;
  }

  // ---------------------------------------------------------------------------
  // paragraph

  /** `paragraph`: a line that already starts with a tag or a placeholder is
      kept; any other line is wrapped in `<p>`. */
  function Paragraph(line: string): (r: string)
    ensures r == line <==> StartsWith(line, "<") || StartsWith(line, "{")
    ensures r != line ==> r == "<p>" + line + "</p>"
  {
    if StartsWith(line, "<") || StartsWith(line, "{") then line else "<p>" + line + "</p>"
  }

  /** Wrapping a paragraph's output again changes nothing. */
  lemma {:induction false} ParagraphIdempotent(line: string)
    ensures Paragraph(Paragraph(line)) == Paragraph(line)
  {
    if Paragraph(line) != line {
      assert StartsWith(Paragraph(line), "<");
    }
  }

  /** A line holding a placeholder is not wrapped in a paragraph. */
  lemma {:induction false} ParagraphKeepsPlaceholder(k: nat, rest: string)
    ensures Paragraph(Token(k) + rest) == Token(k) + rest
  {
    assert StartsWith(Token(k) + rest, "{");
  }

  // ---------------------------------------------------------------------------
  // codearea

  /** The read-only text area a code block is rendered as. */
  datatype Textarea = Textarea(rows: nat, cols: nat, code: string)

  function RenderTextarea(t: Textarea): string {
    "<textarea class=\"codearea\" rows=\"" + Decimal(t.rows) + "\" cols=\"" + Decimal(t.cols)
      + "\" readonly>" + t.code + "</textarea>"
  }

  /** The text area for the code `raw`: the code stripped of surrounding
      whitespace, one row per line, and one column more than the longest line.
      Code that is nothing but whitespace has no longest line. */
  function CodeLayout(raw: string): (r: Result<Textarea>)
    ensures r.Err? <==> AllSpace(raw)
    ensures r.Err? ==> r.error == EmptyCode
    ensures r.Ok? ==> r.value.code == Strip(raw) && r.value.rows == |SplitLines(Strip(raw))| > 0
    ensures r.Ok? ==> forall k :: 0 <= k < r.value.rows ==> |SplitLines(Strip(raw))[k]| < r.value.cols
    ensures r.Ok? ==> exists k :: 0 <= k < r.value.rows && |SplitLines(Strip(raw))[k]| == r.value.cols - 1
  {
    var code := Strip(raw);
    var lines := SplitLines(code);
    if lines == [] then Err(EmptyCode) else Ok(Textarea(|lines|, MaxLen(lines) + 1, code))
  }

  /** For code whose lines end in `\n`, the number of rows is one more than the
      number of newlines in the stripped code. */
  lemma {:induction false} CodeRows(raw: string)
    requires !AllSpace(raw) && OnlyNewlineBreaks(Strip(raw))
    ensures CodeLayout(raw).value.rows == Count(Strip(raw), '\n') + 1
  {
    var code := Strip(raw);
    assert IsSpace('\n');
    JoinSplit(code);
  }

  /** `codearea`: renders the code as a text area, preserves it, and returns
      its placeholder. */
  method Codearea(vault: BlobVault, raw: string) returns (r: Result<string>)
    modifies vault
    ensures CodeLayout(raw).Err? ==> r == Err(EmptyCode) && vault.blobs == old(vault.blobs)
    ensures CodeLayout(raw).Ok? ==> r == Ok(Token(|old(vault.blobs)|))
    ensures CodeLayout(raw).Ok? ==> vault.blobs == old(vault.blobs) + [RenderTextarea(CodeLayout(raw).value)]
  {
    var code := Strip(raw);
    var lines := SplitLines(code);
    if lines == [] {
      assert CodeLayout(raw) == Err(EmptyCode);
      return Err(EmptyCode);
    }
    var area := Textarea(|lines|, MaxLen(lines) + 1, code);
    assert CodeLayout(raw) == Ok(area);
    var token := vault.Preserve(RenderTextarea(area));
    r := Ok(token);
  }

  // ---------------------------------------------------------------------------
  // verbatim

  /** `verbatim`: the matched region, tags included, is preserved byte for
      byte and replaced by its placeholder. */
  method Verbatim(vault: BlobVault, tag: string, content: string) returns (token: string)
    modifies vault
    ensures vault.blobs == old(vault.blobs) + ["<" + tag + content + "</" + tag + ">"]
    ensures token == Token(|old(vault.blobs)|)
  {
    token := vault.Preserve("<" + tag + content + "</" + tag + ">");
  }

  // ---------------------------------------------------------------------------
  // inline

  datatype Resource = Image | SourceCode | Unsupported

  const ImageSuffixes: seq<string> := ["png", "jpg", "jpeg", "gif", "svg"]
  const CodeSuffixes: seq<string> := ["py", "js"]

  predicate EndsWithAny(s: string, suffixes: seq<string>) {
    exists i :: 0 <= i < |suffixes| && EndsWith(s, suffixes[i])
  }

  /** How `inline` treats a path: by the suffix of its lower-cased form,
      with no dot required. */
  function ResourceKind(src: string): Resource {
    var l := Lower(src);
    if EndsWithAny(l, ImageSuffixes) then Image
    else if EndsWithAny(l, CodeSuffixes) then SourceCode
    else Unsupported
  }

  lemma {:induction false} LowerIdempotent(s: string)
    ensures Lower(Lower(s)) == Lower(s)
  {
    if s != [] {
      assert Lower(s)[1..] == Lower(s[1..]);
      LowerIdempotent(s[1..]);
    }
  }

  /** The dispatch ignores the case of the path. */
  lemma {:induction false} ResourceKindIgnoresCase(src: string)
    ensures ResourceKind(Lower(src)) == ResourceKind(src)
  {
    LowerIdempotent(src);
  }

  function ImageTag(src: string, title: string): string {
    "<img src=\"" + src + "\" title=\"" + title + "\"/>"
  }

  /** `inline`: an image becomes an `<img>` tag; a source file, read from
      `files`, becomes a code area; any other path is an error and nothing is
      emitted or preserved. */
  method Inline(vault: BlobVault, title: string, src: string, files: map<string, string>)
    returns (r: Result<string>)
    modifies vault
    ensures ResourceKind(src) == Image ==> r == Ok(ImageTag(src, title)) && vault.blobs == old(vault.blobs)
    ensures ResourceKind(src) == Unsupported ==> r == Err(CannotInline(src)) && vault.blobs == old(vault.blobs)
    ensures ResourceKind(src) == SourceCode && src !in files ==> r == Err(FileNotFound(src)) && vault.blobs == old(vault.blobs)
    ensures ResourceKind(src) == SourceCode && src in files ==>
              match CodeLayout(files[src])
              case Err(e) => r == Err(e) && vault.blobs == old(vault.blobs)
              case Ok(area) => r == Ok(Token(|old(vault.blobs)|)) && vault.blobs == old(vault.blobs) + [RenderTextarea(area)]
  {
    match ResourceKind(src)
    case Image =>
      r := Ok(ImageTag(src, title));
    case SourceCode =>
      if src !in files {
        r := Err(FileNotFound(src));
      } else {
        r := Codearea(vault, files[src]);
      }
    case Unsupported =>
      r := Err(CannotInline(src));
  }
}
