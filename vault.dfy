/** The blob vault: rendered fragments hidden from later rules behind `{k}`
    placeholders, and the final pass that puts them back. */
module Vault {
  import opened Text
  import opened Results

  /** The placeholder `preserve` returns for the fragment at index `k`. */
  function Token(k: nat): (t: string)
    ensures |t| >= 3 && t[0] == '{' && t[|t| - 1] == '}'
    ensures AllDigits(t[1..|t| - 1]) && ParseDigits(t[1..|t| - 1]) == k
  {
    var t := "{" + Decimal(k) + "}";
    assert t[1..|t| - 1] == Decimal(k);
    ParseDecimal(k);
    t
  }

  /** Distinct fragments get distinct placeholders. */
  lemma TokenInjective(j: nat, k: nat)
    requires Token(j) == Token(k)
    ensures j == k
  {
    var t := Token(j);
    assert ParseDigits(t[1..|t| - 1]) == j;
  }

  /** The process-wide list `preserved_blobs`. */
  class BlobVault {
    var blobs: seq<string>

    constructor ()
      ensures blobs == []
    {
      blobs := [];
    }

    /** `preserved_blobs.clear()` */
    method Clear()
      modifies this
      ensures blobs == []
    {
      blobs := [];
    }

    /** `preserve(blob)`: appends the fragment and returns its placeholder. */
    method Preserve(blob: string) returns (token: string)
      modifies this
      ensures blobs == old(blobs) + [blob]
      ensures token == Token(|old(blobs)|)
      ensures blobs[|blobs| - 1] == blob
    {
      blobs := blobs + [blob];
      token := "{" + Decimal(|blobs| - 1) + "}";
    }
  }

  /** Fragments preserved one after the other on a cleared vault are numbered
      0, 1, 2, ... in the order they were preserved. */
  method PreserveInOrder(vault: BlobVault, fragments: seq<string>) returns (tokens: seq<string>)
    modifies vault
    ensures vault.blobs == fragments
    ensures |tokens| == |fragments|
    ensures forall k :: 0 <= k < |tokens| ==> tokens[k] == Token(k)
  {
    vault.Clear();
    tokens := [];
    for i := 0 to |fragments|
      invariant vault.blobs == fragments[..i]
      invariant |tokens| == i
      invariant forall k :: 0 <= k < i ==> tokens[k] == Token(k)
    {
      var t := vault.Preserve(fragments[i]);
      tokens := tokens + [t];
      assert fragments[..i + 1] == fragments[..i] + [fragments[i]];
    }
    assert fragments[..|fragments|] == fragments;
  }

  // ---------------------------------------------------------------------------
  // Resolution: `text.format(*preserved_blobs)`, for placeholders only

  function Prefix(p: string, r: Result<string>): (q: Result<string>)
    ensures q.Ok? <==> r.Ok?
    ensures q.Ok? ==> q.value == p + r.value
    ensures q.Err? ==> q.error == r.error
  {
    match r
    case Ok(t) => Ok(p + t)
    case Err(e) => Err(e)
  }

  /** `s.format(*blobs)`, scanned once from left to right: `{k}` becomes
      fragment k, `{{` and `}}` become single braces, and the scan stops at
      the first brace it cannot read. An inserted fragment is never scanned. */
  function Resolve(s: string, blobs: seq<string>): (r: Result<string>)
    ensures r.Err? && r.error.IndexOutOfRange? ==> r.error.index >= |blobs|
    decreases |s|
  {
    if s == [] then Ok([])
    else if s[0] == '{' then
      if |s| >= 2 && s[1] == '{' then Prefix("{", Resolve(s[2..], blobs))
      else
        var n := DigitRun(s[1..]);
        if n == 0 || 1 + n == |s| || s[1 + n] != '}' then Err(UnsupportedField)
        else
          assert s[1..1 + n] == s[1..][..n];
          var k := ParseDigits(s[1..1 + n]);
          if k < |blobs| then Prefix(blobs[k], Resolve(s[n + 2..], blobs))
          else Err(IndexOutOfRange(k))
    else if s[0] == '}' then
      if |s| >= 2 && s[1] == '}' then Prefix("}", Resolve(s[2..], blobs))
      else Err(SingleBrace)
    else Prefix([s[0]], Resolve(s[1..], blobs))
  }

  predicate BraceFree(s: string) {
    forall i :: 0 <= i < |s| ==> s[i] != '{' && s[i] != '}'
  }

  /** Text without braces passes through resolution unchanged. */
  lemma {:induction false} ResolveBraceFree(a: string, rest: string, blobs: seq<string>)
    requires BraceFree(a)
    ensures Resolve(a + rest, blobs) == Prefix(a, Resolve(rest, blobs))
  {
    if a == [] {
      assert a + rest == rest;
      var r := Resolve(rest, blobs);
      if r.Ok? {
        assert a + r.value == r.value;
      }
    } else {
      var s := a + rest;
      assert s[0] == a[0] && s[1..] == a[1..] + rest;
      assert Resolve(s, blobs) == Prefix([a[0]], Resolve(a[1..] + rest, blobs));
      ResolveBraceFree(a[1..], rest, blobs);
      assert [a[0]] + a[1..] == a;
      var r := Resolve(rest, blobs);
      if r.Ok? {
        assert [a[0]] + (a[1..] + r.value) == a + r.value;
      }
    }
  }

  /** Resolving text with a brace-free prefix is resolving the rest, with
      the prefix put in front. */
  lemma PrefixPrefix(a: string, b: string, r: Result<string>)
    ensures Prefix(a, Prefix(b, r)) == Prefix(a + b, r)
  {
    if r.Ok? {
      assert a + (b + r.value) == (a + b) + r.value;
    }
  }

  /** `{{` and `}}` stand for single braces, wherever they occur after
      brace-free text. */
  lemma ResolveEscapes(a: string, rest: string, blobs: seq<string>)
    requires BraceFree(a)
    ensures Resolve(a + "{{" + rest, blobs) == Prefix(a + "{", Resolve(rest, blobs))
    ensures Resolve(a + "}}" + rest, blobs) == Prefix(a + "}", Resolve(rest, blobs))
  {
    assert a + "{{" + rest == a + ("{{" + rest);
    assert a + "}}" + rest == a + ("}}" + rest);
    ResolveBraceFree(a, "{{" + rest, blobs);
    ResolveBraceFree(a, "}}" + rest, blobs);
    assert ("{{" + rest)[2..] == rest && ("}}" + rest)[2..] == rest;
    PrefixPrefix(a, "{", Resolve(rest, blobs));
    PrefixPrefix(a, "}", Resolve(rest, blobs));
  }

  /** A `}` that is not doubled is an error: format raises on a single `}`. */
  lemma ResolveSingleBrace(a: string, rest: string, blobs: seq<string>)
    requires BraceFree(a)
    requires rest == [] || rest[0] != '}'
    ensures Resolve(a + "}" + rest, blobs) == Err(SingleBrace)
  {
    assert a + "}" + rest == a + ("}" + rest);
    ResolveBraceFree(a, "}" + rest, blobs);
    assert ("}" + rest)[0] == '}';
    assert |"}" + rest| >= 2 ==> ("}" + rest)[1] == rest[0];
  }

  /** A `{` that opens neither `{{` nor a `{digits}` field is an error. */
  lemma ResolveBadField(a: string, rest: string, blobs: seq<string>)
    requires BraceFree(a)
    requires rest == [] || rest[0] != '{'
    requires DigitRun(rest) == 0 || DigitRun(rest) == |rest| || rest[DigitRun(rest)] != '}'
    ensures Resolve(a + "{" + rest, blobs) == Err(UnsupportedField)
  {
    var s := "{" + rest;
    assert a + "{" + rest == a + s;
    ResolveBraceFree(a, s, blobs);
    assert s[1..] == rest;
    assert |s| >= 2 ==> s[1] == rest[0];
  }

  /** A placeholder resolves to its fragment, or fails when the vault holds
      no fragment at its index. */
  lemma ResolveToken(k: nat, rest: string, blobs: seq<string>)
    ensures Resolve(Token(k) + rest, blobs)
         == if k < |blobs| then Prefix(blobs[k], Resolve(rest, blobs)) else Err(IndexOutOfRange(k))
  {
    var d := Decimal(k);
    TokenThenRest(k, rest);
    ResolveField(d, rest, blobs);
    ParseDecimal(k);
  }

  lemma TokenThenRest(k: nat, rest: string)
    ensures Token(k) + rest == "{" + (Decimal(k) + ("}" + rest))
  {
  }

  /** A field of digits `d` between braces, followed by `rest`. */
  lemma ResolveField(d: string, rest: string, blobs: seq<string>)
    requires d != [] && AllDigits(d)
    ensures Resolve("{" + (d + ("}" + rest)), blobs)
         == if ParseDigits(d) < |blobs| then Prefix(blobs[ParseDigits(d)], Resolve(rest, blobs))
            else Err(IndexOutOfRange(ParseDigits(d)))
  {
    var s := "{" + (d + ("}" + rest));
    assert s[0] == '{';
    assert s[1] == d[0] && IsDigit(d[0]);
    assert s[1..] == d + ("}" + rest);
    DigitRunPrefix(d, "}" + rest);
    assert s[1..1 + |d|] == d;
    assert s[1 + |d|] == '}';
    assert s[|d| + 2..] == rest;
  }

  /** A document as the rules leave it: text, and placeholders in between. */
  datatype Piece = Literal(text: string) | Placeholder(index: nat)

  function Render(pieces: seq<Piece>): string {
    if pieces == [] then []
    else
      match pieces[0]
      case Literal(t) => t + Render(pieces[1..])
      case Placeholder(k) => Token(k) + Render(pieces[1..])
  }

  /** The reference meaning of a document: each placeholder replaced by its
      fragment, taken verbatim; the first placeholder past the end of the
      vault is an error. */
  function Expand(pieces: seq<Piece>, blobs: seq<string>): (r: Result<string>)
    ensures r.Ok? <==> forall i :: 0 <= i < |pieces| && pieces[i].Placeholder? ==> pieces[i].index < |blobs|
  {
    if pieces == [] then Ok([])
    else
      var rest := Expand(pieces[1..], blobs);
      assert forall i :: 1 <= i < |pieces| ==> pieces[i] == pieces[1..][i - 1];
      match pieces[0]
      case Literal(t) => Prefix(t, rest)
      case Placeholder(k) => if k < |blobs| then Prefix(blobs[k], rest) else Err(IndexOutOfRange(k))
  }

  /** Resolving a rendered document gives its reference meaning, as long as
      the text between placeholders holds no braces: every placeholder is
      replaced in one pass, by a fragment that is not itself scanned. */
  lemma {:induction false} ResolveRender(pieces: seq<Piece>, blobs: seq<string>)
    requires forall i :: 0 <= i < |pieces| && pieces[i].Literal? ==> BraceFree(pieces[i].text)
    ensures Resolve(Render(pieces), blobs) == Expand(pieces, blobs)
  {
    if pieces != [] {
      var rest := pieces[1..];
      assert forall i :: 0 <= i < |rest| ==> rest[i] == pieces[i + 1];
      ResolveRender(rest, blobs);
      match pieces[0]
      case Literal(t) =>
        ResolveBraceFree(t, Render(rest), blobs);
      case Placeholder(k) =>
        ResolveToken(k, Render(rest), blobs);
    }
  }
}
