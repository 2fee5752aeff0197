/** Column-header normalisation, the pipeline every loader of
    dashboard_template.py applies to `df.columns`: `str.strip()`, then
    `str.lower()`, then the regex replacement of `[ /-]+` by `_`.
    Characters are treated as ASCII: only 'A'..'Z' change case, and the
    whitespace set is the ASCII part of Python's `str.isspace`. */
module Headers {

  /** A member of the regex character class `[ /-]`. */
  predicate IsSeparator(c: char) {
    c == ' ' || c == '/' || c == '-'
  }

  /** An ASCII character that `str.strip()` removes: tab, line feed,
      vertical tab, form feed, carriage return, the four information
      separators 0x1C..0x1F, and space. */
  predicate IsWhitespace(c: char) {
    c == ' ' || ('\t' <= c <= '\r') || ('\U{1C}' <= c <= '\U{1F}')
  }

  predicate IsUpper(c: char) {
    'A' <= c <= 'Z'
  }

  function LowerChar(c: char): (d: char)
    ensures !IsUpper(d)
    ensures IsUpper(c) ==> d as int == c as int + 32 && 'a' <= d <= 'z'
    ensures !IsUpper(c) ==> d == c
    ensures IsWhitespace(d) <==> IsWhitespace(c)
    ensures IsSeparator(d) <==> IsSeparator(c)
  {
    if IsUpper(c) then (c as int + 32) as char else c
  }

  // ---------------------------------------------------------------------
  // str.strip()

  /** Number of whitespace characters at the front of `s`. */
  function LeadingWhitespace(s: string): (n: nat)
    ensures n <= |s|
    ensures forall k :: 0 <= k < n ==> IsWhitespace(s[k])
    ensures n < |s| ==> !IsWhitespace(s[n])
  {
    if s != [] && IsWhitespace(s[0]) then 1 + LeadingWhitespace(s[1..]) else 0
  }

  /** Number of whitespace characters at the back of `s`. */
  function TrailingWhitespace(s: string): (n: nat)
    ensures n <= |s|
    ensures forall k :: |s| - n <= k < |s| ==> IsWhitespace(s[k])
    ensures n < |s| ==> !IsWhitespace(s[|s| - n - 1])
  {
    if s != [] && IsWhitespace(s[|s| - 1]) then 1 + TrailingWhitespace(s[..|s| - 1]) else 0
  }

  predicate AllWhitespace(s: string) {
    forall k :: 0 <= k < |s| ==> IsWhitespace(s[k])
  }

  predicate NoOuterWhitespace(s: string) {
    s != [] ==> !IsWhitespace(s[0]) && !IsWhitespace(s[|s| - 1])
  }

  /** `s` is `r` with only whitespace added in front and behind. */
  ghost predicate PaddedBy(s: string, r: string) {
    exists i :: 0 <= i <= |s| - |r| && s[i..i + |r|] == r && AllWhitespace(s[..i]) && AllWhitespace(s[i + |r|..])
  }

  function Strip(s: string): (r: string)
    ensures NoOuterWhitespace(r)
    ensures r == [] <==> AllWhitespace(s)
    ensures PaddedBy(s, r)
  {
    var n := LeadingWhitespace(s);
    if n == |s| then
      assert s[..0] == [] && s[0..0] == [];
      []
    else
      var m := TrailingWhitespace(s);
      assert n < |s| - m;
      assert AllWhitespace(s[..n]);
      assert AllWhitespace(s[|s| - m..]);
      s[n..|s| - m]
  }

  // ---------------------------------------------------------------------
  // str.lower()

  function Lower(s: string): (r: string)
    ensures |r| == |s|
    ensures forall k :: 0 <= k < |r| ==> !IsUpper(r[k])
    ensures forall k :: 0 <= k < |s| ==> !IsUpper(s[k]) ==> r[k] == s[k]
    ensures forall k :: 0 <= k < |s| && IsUpper(s[k]) ==> r[k] as int == s[k] as int + 32
  {
    seq(|s|, k requires 0 <= k < |s| => LowerChar(s[k]))
  }

  // ---------------------------------------------------------------------
  // str.replace(r'[ /-]+', '_', regex=True)

  /** Length of the run of separators at the front of `s`. */
  function SeparatorRun(s: string): (n: nat)
    ensures n <= |s|
    ensures forall k :: 0 <= k < n ==> IsSeparator(s[k])
    ensures n < |s| ==> !IsSeparator(s[n])
  {
    if s != [] && IsSeparator(s[0]) then 1 + SeparatorRun(s[1..]) else 0
  }

  /** The regex replacement as the regex engine performs it: scan left to
      right; at a separator the greedy `+` consumes the whole run and one
      `_` is emitted; any other character is copied. */
  function CollapseSeparators(s: string): (r: string)
    ensures forall k :: 0 <= k < |r| ==> !IsSeparator(r[k])
    ensures forall k :: 0 <= k < |r| ==> r[k] == '_' || r[k] in s
    ensures |r| <= |s|
    ensures r == [] <==> s == []
    decreases |s|
  {
    if s == [] then []
    else if IsSeparator(s[0]) then "_" + CollapseSeparators(s[SeparatorRun(s)..])
    else [s[0]] + CollapseSeparators(s[1..])
  }

  /** Reference reading of the replacement, character by character: a
      separator that starts a run becomes `_`, a separator that continues
      a run vanishes, and every other character is kept. `afterSeparator`
      tells whether the character before `s` was a separator. */
  function MarkRuns(s: string, afterSeparator: bool): string {
    if s == [] then []
    else
      (if !IsSeparator(s[0]) then [s[0]] else if afterSeparator then [] else "_")
      + MarkRuns(s[1..], IsSeparator(s[0]))
  }

  /** After a separator, the rest of a run contributes nothing. */
  lemma {:induction false} MarkRunsSkipsRun(s: string)
    ensures MarkRuns(s, true) == MarkRuns(s[SeparatorRun(s)..], true)
    decreases |s|
  {
    if s != [] && IsSeparator(s[0]) {
      MarkRunsSkipsRun(s[1..]);
      assert s[1..][SeparatorRun(s[1..])..] == s[SeparatorRun(s)..];
    }
  }

  /** The regex replacement agrees with the character-by-character
      reading: each maximal run of `[ /-]` becomes exactly one `_` and
      every other character is kept in order. */
  lemma {:induction false} CollapseMatchesMarkRuns(s: string)
    ensures CollapseSeparators(s) == MarkRuns(s, false)
    decreases |s|
  {
    if s == [] {
    } else if IsSeparator(s[0]) {
      var rest := s[SeparatorRun(s)..];
      MarkRunsSkipsRun(s[1..]);
      assert s[1..][SeparatorRun(s[1..])..] == rest;
      CollapseMatchesMarkRuns(rest);
      assert rest == [] || !IsSeparator(rest[0]);
      assert MarkRuns(rest, true) == MarkRuns(rest, false);
    } else {
      CollapseMatchesMarkRuns(s[1..]);
    }
  }

  /** The characters of `s` other than separators and underscores. */
  function Residue(s: string): (r: string)
    ensures forall k :: 0 <= k < |r| ==> !IsSeparator(r[k]) && r[k] != '_'
  {
    if s == [] then []
    else (if IsSeparator(s[0]) || s[0] == '_' then [] else [s[0]]) + Residue(s[1..])
  }

  lemma {:induction false} ResidueSkipsRun(s: string)
    ensures Residue(s) == Residue(s[SeparatorRun(s)..])
    decreases |s|
  {
    if s != [] && IsSeparator(s[0]) {
      ResidueSkipsRun(s[1..]);
      assert s[1..][SeparatorRun(s[1..])..] == s[SeparatorRun(s)..];
    }
  }

  /** The replacement only ever removes separators and inserts
      underscores: every other character survives, in order. */
  lemma {:induction false} CollapseKeepsResidue(s: string)
    ensures Residue(CollapseSeparators(s)) == Residue(s)
    decreases |s|
  {
    if s == [] {
    } else if IsSeparator(s[0]) {
      var rest := s[SeparatorRun(s)..];
      CollapseKeepsResidue(rest);
      ResidueSkipsRun(s);
      assert ("_" + CollapseSeparators(rest))[1..] == CollapseSeparators(rest);
    } else {
      CollapseKeepsResidue(s[1..]);
      assert ([s[0]] + CollapseSeparators(s[1..]))[1..] == CollapseSeparators(s[1..]);
    }
  }

  /** The first and last characters of the replacement: a separator at
      either end of `s` turns into `_` there, anything else stays. */
  lemma {:induction false} CollapseEnds(s: string)
    requires s != []
    ensures CollapseSeparators(s) != []
    ensures CollapseSeparators(s)[0] == if IsSeparator(s[0]) then '_' else s[0]
    ensures var r := CollapseSeparators(s);
      r[|r| - 1] == if IsSeparator(s[|s| - 1]) then '_' else s[|s| - 1]
    decreases |s|
  {
    if IsSeparator(s[0]) {
      var n := SeparatorRun(s);
      if n < |s| {
        CollapseEnds(s[n..]);
      }
    } else if |s| > 1 {
      CollapseEnds(s[1..]);
    }
  }

  /** A string without separators is left alone by the replacement. */
  lemma {:induction false} CollapseWithoutSeparators(s: string)
    requires forall k :: 0 <= k < |s| ==> !IsSeparator(s[k])
    ensures CollapseSeparators(s) == s
    decreases |s|
  {
    if s != [] {
      CollapseWithoutSeparators(s[1..]);
    }
  }

  // ---------------------------------------------------------------------
  // The whole pipeline

  /** The shape every header has after normalisation. */
  predicate IsNormalized(h: string) {
    && NoOuterWhitespace(h)
    && forall k :: 0 <= k < |h| ==> !IsSeparator(h[k]) && !IsUpper(h[k])
  }

  /** Collapsing the separators of a trimmed, lower-case string yields a
      normalised header. */
  lemma CollapseNormalizes(s: string)
    requires NoOuterWhitespace(s)
    requires forall k :: 0 <= k < |s| ==> !IsUpper(s[k])
    ensures IsNormalized(CollapseSeparators(s))
  {
    var r := CollapseSeparators(s);
    if s != [] {
      CollapseEnds(s);
    }
    forall k | 0 <= k < |r|
      ensures !IsUpper(r[k])
    {
      if r[k] != '_' {
        var j :| 0 <= j < |s| && s[j] == r[k];
      }
    }
  }

  /** `df.columns.str.strip().str.lower().str.replace(r'[ /-]+', '_')`
      applied to one header. */
  function Normalize(h: string): (r: string)
    ensures IsNormalized(r)
    ensures r == [] <==> AllWhitespace(h)
  {
    var t := Strip(h);
    var s := Lower(t);
    assert NoOuterWhitespace(s) by {
      if s != [] {
        assert s[0] == LowerChar(t[0]) && s[|s| - 1] == LowerChar(t[|t| - 1]);
      }
    }
    CollapseNormalizes(s);
    CollapseSeparators(s)
  }

  /** Normalisation keeps every character of the stripped header outside
      `[ /-_]`, lower-cased, in its original order. */
  lemma NormalizeKeepsOtherCharacters(h: string)
    ensures Residue(Normalize(h)) == Residue(Lower(Strip(h)))
  {
    CollapseKeepsResidue(Lower(Strip(h)));
  }

  /** Normalisation is the regex replacement read character by character
      on the stripped, lower-cased header. */
  lemma NormalizeMarksRuns(h: string)
    ensures Normalize(h) == MarkRuns(Lower(Strip(h)), false)
  {
    CollapseMatchesMarkRuns(Lower(Strip(h)));
  }

  lemma StripKeepsTrimmed(s: string)
    requires NoOuterWhitespace(s)
    ensures Strip(s) == s
  {
  }

  /** A header already in normal form is its own normal form. */
  lemma {:induction false} NormalizeKeepsNormalized(h: string)
    requires IsNormalized(h)
    ensures Normalize(h) == h
  {
    StripKeepsTrimmed(h);
    assert Lower(h) == h;
    CollapseWithoutSeparators(h);
  }

  /** Normalising an already normalised header changes nothing. */
  lemma NormalizeIdempotent(h: string)
    ensures Normalize(Normalize(h)) == Normalize(h)
  {
    NormalizeKeepsNormalized(Normalize(h));
  }
}
