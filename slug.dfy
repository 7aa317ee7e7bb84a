/** The heading-id translator: a table from characters to slug characters, and
    `str.translate` through it. */
module Slug {
  import opened Text

  /** The characters an id can contain. */
  predicate IsSlugChar(c: char) {
    'a' <= c <= 'z' || '0' <= c <= '9' || c == '-'
  }

  predicate IsSlug(s: string) {
    forall i :: 0 <= i < |s| ==> IsSlugChar(s[i])
  }

  predicate IsSeparator(c: char) {
    c == '_' || c == '-' || c == ' ' || c == '/'
  }

  predicate IsAsciiAlnum(c: char) {
    'a' <= c <= 'z' || 'A' <= c <= 'Z' || '0' <= c <= '9'
  }

  /** `string.ascii_lowercase` and `string.digits`. */
  const AsciiLowercase: string := seq(26, i requires 0 <= i < 26 => ('a' as int + i) as char)
  const Digits: string := seq(10, i requires 0 <= i < 10 => ('0' as int + i) as char)

  /** `c.upper()` on a lower-case ASCII letter or a digit. */
  function UpperChar(c: char): char {
    if 'a' <= c <= 'z' then (c as int - 32) as char else c
  }

  /** The translation table read as a total function: the text `translate`
      puts in place of `c`, empty for every character the table leaves out. */
  function SlugOf(c: char): (r: string)
    ensures r != [] <==> IsSeparator(c) || IsAsciiAlnum(c)
    ensures IsSeparator(c) ==> r == "-"
    ensures IsAsciiAlnum(c) ==> r == [LowerChar(c)]
  {
    if IsSeparator(c) then "-"
    else if IsAsciiAlnum(c) then [LowerChar(c)]
    else ""
  }

  /** Every entry of `table` is the translation of its key. */
  predicate Translates(table: map<char, char>) {
    forall c :: c in table ==> SlugOf(c) == [table[c]]
  }

  /** Adding an entry that agrees with the translation keeps the table sound. */
  lemma TranslatesUpdate(table: map<char, char>, c: char, v: char)
    requires Translates(table) && SlugOf(c) == [v]
    ensures Translates(table[c := v])
  {
  }

  /** The loops that fill the table: the four separators map to `-`, each
      lower-case letter and digit maps to itself, and so does its upper case. */
  method BuildSlugTable() returns (table: map<char, char>)
    ensures forall c :: c in table <==> SlugOf(c) != []
    ensures forall c :: c in table ==> SlugOf(c) == [table[c]]
  {
    table := map[];
    var separators := "_- /";
    for i := 0 to |separators|
      invariant Translates(table)
      invariant forall j :: 0 <= j < i ==> separators[j] in table
    {
      TranslatesUpdate(table, separators[i], '-');
      table := table[separators[i] := '-'];
    }
    var alnum := AsciiLowercase + Digits;
    for i := 0 to |alnum|
      invariant Translates(table)
      invariant forall j :: 0 <= j < |separators| ==> separators[j] in table
      invariant forall j :: 0 <= j < i ==> alnum[j] in table && UpperChar(alnum[j]) in table
    {
      var c := alnum[i];
      AlnumEntry(alnum, i);
      TranslatesUpdate(table, c, c);
      TranslatesUpdate(table[c := c], UpperChar(c), c);
      table := table[c := c][UpperChar(c) := c];
    }
    TableComplete(table, separators, alnum);
  }

  /** Each letter and digit, and its upper case, translates to itself. */
  lemma AlnumEntry(alnum: string, i: nat)
    requires alnum == AsciiLowercase + Digits && i < |alnum|
    ensures SlugOf(alnum[i]) == [alnum[i]] && SlugOf(UpperChar(alnum[i])) == [alnum[i]]
  {
    var c := alnum[i];
    if i < 26 {
      assert c == AsciiLowercase[i];
      assert 'a' <= c <= 'z';
    } else {
      assert c == Digits[i - 26];
      assert '0' <= c <= '9';
    }
  }

  /** A table holding the four separators, and every letter and digit in both
      cases, holds every character the translator maps. */
  lemma TableComplete(table: map<char, char>, separators: string, alnum: string)
    requires separators == "_- /" && alnum == AsciiLowercase + Digits
    requires forall j :: 0 <= j < |separators| ==> separators[j] in table
    requires forall j :: 0 <= j < |alnum| ==> alnum[j] in table && UpperChar(alnum[j]) in table
    ensures forall c :: SlugOf(c) != [] ==> c in table
  {
    forall c | SlugOf(c) != [] ensures c in table {
      if 'a' <= c <= 'z' {
        assert alnum[c as int - 'a' as int] == c;
      } else if 'A' <= c <= 'Z' {
        assert UpperChar(alnum[c as int - 'A' as int]) == c;
      } else if '0' <= c <= '9' {
        assert alnum[26 + c as int - '0' as int] == c;
      } else {
        assert c == separators[0] || c == separators[1] || c == separators[2] || c == separators[3];
      }
    }
  }

  /** `text.translate(slugify)`: each character replaced by its table entry. */
  function Slugify(s: string): (r: string)
    ensures |r| <= |s|
    ensures IsSlug(r)
  {
    if s == [] then [] else SlugOf(s[0]) + Slugify(s[1..])
  }

  lemma {:induction false} SlugifyAppend(a: string, b: string)
    ensures Slugify(a + b) == Slugify(a) + Slugify(b)
  {
    if a == [] {
      assert a + b == b;
    } else {
      assert (a + b)[1..] == a[1..] + b;
      SlugifyAppend(a[1..], b);
    }
  }

  /** A string is left unchanged by the translation exactly when it is
      already a slug. */
  lemma {:induction false} SlugifyFixedPoints(s: string)
    ensures Slugify(s) == s <==> IsSlug(s)
  {
    if IsSlug(s) {
      SlugifyKeepsSlugs(s);
    }
  }

  lemma {:induction false} SlugifyKeepsSlugs(s: string)
    requires IsSlug(s)
    ensures Slugify(s) == s
  {
    if s != [] {
      assert IsSlugChar(s[0]);
      SlugifyKeepsSlugs(s[1..]);
    }
  }

  /** Translating an id a second time changes nothing. */
  lemma SlugifyIdempotent(s: string)
    ensures Slugify(Slugify(s)) == Slugify(s)
  {
    SlugifyKeepsSlugs(Slugify(s));
  }

  /** Headings that differ only in the case of ASCII letters get the same id. */
  lemma {:induction false} SlugifyIgnoresCase(s: string)
    ensures Slugify(Lower(s)) == Slugify(s)
  {
    if s != [] {
      assert Lower(s)[1..] == Lower(s[1..]);
      SlugifyIgnoresCase(s[1..]);
    }
  }
}
