/** The conversion pipeline `markup`: the text is wrapped in newlines, the
    rewrite rules run over it one after the other, and the placeholders left
    behind are resolved against the fragments the rules preserved. The regular
    expressions are abstract: a rule is any function from the current text and
    the current size of the vault to a rewritten text (or the exception a
    callback raised) and the fragments it preserved while rewriting. */
module Pipeline {
  import opened Text
  import opened Results
  import opened Vault

  /** What one `re.sub` pass yields: the rewritten text, or the exception a
      callback raised, together with the fragments its callbacks preserved in
      order (those stay in the vault even when the pass fails). */
  datatype Pass = Pass(out: Result<string>, added: seq<string>)

  /** A rule is told the current size of the vault, so that the placeholders
      it writes number on from there. */
  type Rule = (string, nat) -> Pass

  /** The text after the passes run so far (or the first exception) and the
      vault's contents. */
  datatype State = State(out: Result<string>, blobs: seq<string>)

  /** The rule loop of `markup`, from a given text and vault. Preserving only
      ever appends: the fragments held before the loop keep their places. */
  function Apply(rules: seq<Rule>, buffer: string, blobs: seq<string>): (s: State)
    ensures |blobs| <= |s.blobs| && s.blobs[..|blobs|] == blobs
    decreases |rules|
  {
    if rules == [] then State(Ok(buffer), blobs)
    else
      var p := rules[0](buffer, |blobs|);
      var grown := blobs + p.added;
      assert grown[..|blobs|] == blobs;
      match p.out
      case Err(e) => State(Err(e), grown)
      case Ok(next) => Apply(rules[1..], next, grown)
  }

  /** Running further rules after a state: nothing runs once a rule failed. */
  function Continue(s: State, rules: seq<Rule>): State {
    match s.out
    case Err(_) => s
    case Ok(text) => Apply(rules, text, s.blobs)
  }

  /** The rule list can be cut anywhere: running it in full is running the
      first part and then the rest from where the first part left off. */
  lemma {:induction false} ApplyConcat(first: seq<Rule>, rest: seq<Rule>, buffer: string, blobs: seq<string>)
    ensures Apply(first + rest, buffer, blobs) == Continue(Apply(first, buffer, blobs), rest)
    decreases |first|
  {
    if first == [] {
      assert first + rest == rest;
    } else {
      assert (first + rest)[0] == first[0];
      assert (first + rest)[1..] == first[1..] + rest;
      var p := first[0](buffer, |blobs|);
      if p.out.Ok? {
        ApplyConcat(first[1..], rest, p.out.value, blobs + p.added);
      }
    }
  }

  /** A rule that preserves nothing, whatever it is given. */
  ghost predicate PreservesNothing(rule: Rule) {
    forall buffer: string, n: nat :: rule(buffer, n).added == []
  }

  /** Rules that preserve nothing leave the vault as it was. */
  lemma {:induction false} ApplyPreservesNothing(rules: seq<Rule>, buffer: string, blobs: seq<string>)
    requires forall i :: 0 <= i < |rules| ==> PreservesNothing(rules[i])
    ensures Apply(rules, buffer, blobs).blobs == blobs
    decreases |rules|
  {
    if rules != [] {
      var p := rules[0](buffer, |blobs|);
      assert PreservesNothing(rules[0]);
      assert blobs + p.added == blobs;
      if p.out.Ok? {
        ApplyPreservesNothing(rules[1..], p.out.value, blobs);
      }
    }
  }

  function Newline(r: Result<string>): (q: Result<string>)
    ensures q.Ok? <==> r.Ok?
    ensures q.Ok? ==> q.value == r.value + "\n"
    ensures q.Err? ==> q.error == r.error
  {
    match r
    case Ok(t) => Ok(t + "\n")
    case Err(e) => Err(e)
  }

  /** `markup(source)` as a function: the vault starts empty, so only the
      fragments of this conversion can be referred to; the resolved text is
      stripped and ends in exactly one newline. */
  function Convert(source: string, rules: seq<Rule>): (r: State)
    ensures r.blobs == Apply(rules, "\n" + source + "\n", []).blobs
    ensures Apply(rules, "\n" + source + "\n", []).out.Err? ==> r.out == Apply(rules, "\n" + source + "\n", []).out
    ensures r.out.Ok? ==> Apply(rules, "\n" + source + "\n", []).out.Ok?
    ensures r.out.Ok? ==> |r.out.value| >= 1 && r.out.value[|r.out.value| - 1] == '\n'
  {
    var s := Apply(rules, "\n" + source + "\n", []);
    match s.out
    case Err(_) => s
    case Ok(text) => State(Newline(Resolve(Strip(text), s.blobs)), s.blobs)
  }

  /** When the rules leave a text made of brace-free text and placeholders,
      the conversion puts every preserved fragment back in its place, once,
      and fails exactly when a placeholder refers past the vault. */
  lemma ConvertExpands(source: string, rules: seq<Rule>, pieces: seq<Piece>)
    requires Apply(rules, "\n" + source + "\n", []).out.Ok?
    requires Strip(Apply(rules, "\n" + source + "\n", []).out.value) == Render(pieces)
    requires forall i :: 0 <= i < |pieces| && pieces[i].Literal? ==> BraceFree(pieces[i].text)
    ensures Convert(source, rules).out == Newline(Expand(pieces, Convert(source, rules).blobs))
  {
    var s := Apply(rules, "\n" + source + "\n", []);
    ResolveRender(pieces, s.blobs);
  }

  /** `strip` determined by where the text starts and ends. */
  lemma StripBetween(s: string, i: nat, j: nat)
    requires i < j <= |s|
    requires AllSpace(s[..i]) && AllSpace(s[j..])
    requires !IsSpace(s[i]) && !IsSpace(s[j - 1])
    ensures Strip(s) == s[i..j]
  {
    var l := LeadingSpace(s);
    var t := TrailingSpace(s);
    SpacesWithin(s, 0, i);
    SpacesWithin(s, 0, l);
    SpacesWithin(s, j, |s|);
    SpacesWithin(s, |s| - t, |s|);
    assert l == i;
    assert t == |s| - j;
  }

  /** A blank slice, read character by character. */
  lemma SpacesWithin(s: string, i: nat, j: nat)
    requires i <= j <= |s| && AllSpace(s[i..j])
    ensures forall k :: i <= k < j ==> IsSpace(s[k])
  {
    forall k | i <= k < j
      ensures IsSpace(s[k])
    {
      assert s[i..j][k - i] == s[k];
    }
  }

  /** The newlines `markup` wraps around the text are stripped again. */
  lemma StripWrapped(source: string)
    ensures Strip("\n" + source + "\n") == Strip(source)
  {
    if AllSpace(source) {
      WrappedBlank(source);
    } else {
      WrappedText(source);
    }
  }

  lemma WrappedBlank(source: string)
    requires AllSpace(source)
    ensures AllSpace("\n" + source + "\n")
  {
    var w := "\n" + source + "\n";
    WrapFront(source, |source|);
    assert source[..|source|] == source;
    assert w[..|source| + 1] + "\n" == w;
  }

  lemma WrappedText(source: string)
    requires !AllSpace(source)
    ensures Strip("\n" + source + "\n") == Strip(source)
  {
    var w := "\n" + source + "\n";
    var l := LeadingSpace(source);
    var t := TrailingSpace(source);
    var r := Strip(source);
    assert r == source[l..|source| - t];
    assert r[0] == source[l] && r[|r| - 1] == source[|source| - t - 1];
    assert w[l + 1] == source[l];
    assert w[|source| - t] == source[|source| - t - 1];
    WrapMiddle(source, l, t);
    WrapFront(source, l);
    WrapBack(source, t);
    StripBetween(w, l + 1, |source| + 1 - t);
  }

  lemma WrapFront(source: string, l: nat)
    requires l <= |source| && AllSpace(source[..l])
    ensures AllSpace(("\n" + source + "\n")[..l + 1])
  {
    var front := ("\n" + source + "\n")[..l + 1];
    forall k | 0 <= k < |front|
      ensures IsSpace(front[k])
    {
      if k > 0 {
        assert front[k] == source[..l][k - 1];
      }
    }
  }

  lemma WrapBack(source: string, t: nat)
    requires t <= |source| && AllSpace(source[|source| - t..])
    ensures AllSpace(("\n" + source + "\n")[|source| + 1 - t..])
  {
    var back := ("\n" + source + "\n")[|source| + 1 - t..];
    forall k | 0 <= k < |back|
      ensures IsSpace(back[k])
    {
      if k < t {
        assert back[k] == source[|source| - t..][k];
      }
    }
  }

  lemma WrapMiddle(source: string, l: nat, t: nat)
    requires l + t <= |source|
    ensures ("\n" + source + "\n")[l + 1..|source| + 1 - t] == source[l..|source| - t]
  {
    var w := "\n" + source + "\n";
    assert w[1..|source| + 1] == source;
    assert w[l + 1..|source| + 1 - t] == w[1..|source| + 1][l..|source| - t];
  }

  /** With no rules at all, a text without braces comes out stripped and
      ending in one newline. */
  lemma ConvertPlainText(source: string)
    requires BraceFree(source)
    ensures Convert(source, []).out == Ok(Strip(source) + "\n")
    ensures Convert(source, []).blobs == []
  {
    var w := "\n" + source + "\n";
    assert Apply([], w, []) == State(Ok(w), []);
    StripWrapped(source);
    var r := Strip(source);
    StripBraceFree(source);
    ResolveBraceFree(r, [], []);
    assert r + [] == r;
    assert Resolve(r, []) == Ok(r);
  }

  /** Stripping keeps a text free of braces. */
  lemma StripBraceFree(source: string)
    requires BraceFree(source)
    ensures BraceFree(Strip(source))
  {
    var r := Strip(source);
    if r != [] {
      forall k | 0 <= k < |r|
        ensures r[k] != '{' && r[k] != '}'
      {
        assert r[k] == source[LeadingSpace(source) + k];
      }
    }
  }

  /** The fragments one pass preserved, handed to the vault in order. */
  method PreserveAll(vault: BlobVault, added: seq<string>)
    modifies vault
    ensures vault.blobs == old(vault.blobs) + added
  {
    for j := 0 to |added|
      invariant vault.blobs == old(vault.blobs) + added[..j]
    {
      var _ := vault.Preserve(added[j]);
      assert added[..j + 1] == added[..j] + [added[j]];
    }
    assert added[..|added|] == added;
  }

  /** `markup(string)`: clears the vault, runs the rules in order, preserving
      what each pass preserved, and resolves the placeholders in the stripped
      result. An exception ends the conversion and leaves the fragments
      preserved so far in the vault. */
  method Markup(vault: BlobVault, source: string, rules: seq<Rule>) returns (r: Result<string>)
    modifies vault
    ensures r == Convert(source, rules).out
    ensures vault.blobs == Convert(source, rules).blobs
  {
    vault.Clear();
    var buffer := "\n" + source + "\n";
    ghost var whole := Apply(rules, buffer, []);
    var i := 0;
    while i < |rules|
      invariant 0 <= i <= |rules|
      invariant Apply(rules[i..], buffer, vault.blobs) == whole
    {
      var p := rules[i](buffer, |vault.blobs|);
      assert rules[i..][0] == rules[i] && rules[i..][1..] == rules[i + 1..];
      PreserveAll(vault, p.added);
      match p.out {
        case Err(e) =>
          return Err(e);
        case Ok(next) =>
          buffer := next;
      }
      i := i + 1;
    }
    r := Newline(Resolve(Strip(buffer), vault.blobs));
  }
}
