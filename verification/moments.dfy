/** Rewriting of inline moment references: `re.sub` of the pattern
    `prefix([A-F0-9]+)\)` with a callback, one pass per media kind. */
module Moments {
  import opened Wrappers
  import opened Media
  import opened Seqs

  /** The literal start of a moment reference to one kind of attachment. */
  function Prefix(kind: MediaKind): string {
    match kind
    case Photo => "![](dayone-moment://"
    case Audio => "![](dayone-moment:/audio/"
    case Pdf => "![](dayone-moment:/pdfAttachment/"
    case Video => "![](dayone-moment:/video/"
  }

  /** `[A-F0-9]`: upper-case hexadecimal only, the pattern is case-sensitive. */
  predicate IsHexDigit(c: char) {
    'A' <= c <= 'F' || '0' <= c <= '9'
  }

  /** A string the group `([A-F0-9]+)` can capture. */
  predicate IsIdentifier(id: string) {
    |id| >= 1 && forall i :: 0 <= i < |id| ==> IsHexDigit(id[i])
  }

  /** Length of the greedy `[A-F0-9]*` run at the start of `s`. */
  function HexRun(s: string): (n: nat)
    ensures n <= |s|
    ensures forall i :: 0 <= i < n ==> IsHexDigit(s[i])
    ensures n < |s| ==> !IsHexDigit(s[n])
  {
    if |s| == 0 || !IsHexDigit(s[0]) then 0 else 1 + HexRun(s[1..])
  }

  /** A reference found at the start of the text: the captured identifier and
      the number of characters the whole match spans. */
  datatype Match = Match(id: string, length: nat)

  /** The match of `prefix([A-F0-9]+)\)` at the very start of `s`, if any.
      The run is greedy and `)` is not a hex digit, so backtracking never
      finds a shorter match. */
  function MatchAt(s: string, prefix: string): (m: Option<Match>)
    ensures m.Some? ==> && IsIdentifier(m.value.id)
                        && m.value.length == |prefix| + |m.value.id| + 1 <= |s|
                        && s[..m.value.length] == prefix + m.value.id + ")"
  {
    if prefix <= s then
      var rest := s[|prefix|..];
      var n := HexRun(rest);
      if 1 <= n < |rest| && rest[n] == ')' then
        assert s[..|prefix| + n + 1] == prefix + rest[..n] + ")";
        Some(Match(rest[..n], |prefix| + n + 1))
      else None
    else None
  }

  /** The converse of `MatchAt`'s contract: whenever the text starts with a
      well-formed reference, that is the match found. */
  lemma MatchAtComplete(prefix: string, id: string, tail: string)
    requires IsIdentifier(id)
    ensures MatchAt(prefix + id + ")" + tail, prefix) == Some(Match(id, |prefix| + |id| + 1))
  {
    var s := prefix + id + ")" + tail;
    assert s[..|prefix|] == prefix;
    var rest := s[|prefix|..];
    assert rest == id + ")" + tail;
    var n := HexRun(rest);
    assert forall i :: 0 <= i < |id| ==> rest[i] == id[i] && IsHexDigit(rest[i]);
    assert rest[|id|] == ')' && !IsHexDigit(rest[|id|]);
    assert n == |id|;
    assert rest[..n] == id;
  }

  /** True when some position of `s` starts a reference. */
  predicate HasReference(s: string, prefix: string) {
    exists i :: 0 <= i < |s| && MatchAt(s[i..], prefix).Some?
  }

  /** The regular-expression substitution of one media kind: scanning left
      to right, each reference is replaced by what `resolve` gives for its
      identifier and scanning resumes after it; every other character is
      copied. */
  function Substitute(s: string, prefix: string, resolve: string -> string): string
    decreases |s|
  {
    if |s| == 0 then ""
    else
      match MatchAt(s, prefix)
      case Some(m) => resolve(m.id) + Substitute(s[m.length..], prefix, resolve)
      case None => [s[0]] + Substitute(s[1..], prefix, resolve)
  }

  /** A callback that gives every reference back verbatim leaves any text as
      it was: the text between references is copied and each reference is
      replaced in place. */
  lemma {:induction false} SubstituteVerbatimIsIdentity(s: string, prefix: string, resolve: string -> string)
    requires forall id :: resolve(id) == prefix + id + ")"
    ensures Substitute(s, prefix, resolve) == s
    decreases |s|
  {
    if |s| > 0 {
      match MatchAt(s, prefix)
      case Some(m) =>
        SubstituteVerbatimIsIdentity(s[m.length..], prefix, resolve);
        assert s == s[..m.length] + s[m.length..];
      case None =>
        SubstituteVerbatimIsIdentity(s[1..], prefix, resolve);
        assert s == [s[0]] + s[1..];
    }
  }

  /** A reference at the start is replaced by the callback's text, and the
      scan continues right after its closing parenthesis: matches never
      overlap. */
  lemma SubstituteReplacesReference(prefix: string, id: string, tail: string, resolve: string -> string)
    requires IsIdentifier(id)
    ensures Substitute(prefix + id + ")" + tail, prefix, resolve) == resolve(id) + Substitute(tail, prefix, resolve)
  {
    var s := prefix + id + ")" + tail;
    MatchAtComplete(prefix, id, tail);
    assert s[|prefix| + |id| + 1..] == tail;
  }

  /** Splitting a non-empty prefix into its first character and the rest. */
  lemma TakeAfterHead(s: string, k: nat)
    requires 1 <= k <= |s|
    ensures s[..k] == [s[0]] + s[1..][..k - 1]
  {
  }

  /** No position before `k` starts a reference. */
  predicate NoReferenceBefore(s: string, k: nat, prefix: string)
    requires k <= |s|
  {
    forall i :: 0 <= i < k ==> MatchAt(s[i..], prefix).None?
  }

  /** Text in which no position starts a reference is copied unchanged, and
      the scan carries on behind it. */
  lemma {:induction false} SubstituteCopiesPlainText(s: string, k: nat, prefix: string, resolve: string -> string)
    requires k <= |s| && NoReferenceBefore(s, k, prefix)
    ensures Substitute(s, prefix, resolve) == s[..k] + Substitute(s[k..], prefix, resolve)
  {
    if k > 0 {
      assert MatchAt(s[0..], prefix).None?;
      assert s[0..] == s;
      var s' := s[1..];
      var rest := Substitute(s[k..], prefix, resolve);
      assert Substitute(s, prefix, resolve) == [s[0]] + Substitute(s', prefix, resolve);
      forall i | 0 <= i < k - 1
        ensures MatchAt(s'[i..], prefix).None?
      {
        assert s'[i..] == s[i + 1..];
      }
      assert NoReferenceBefore(s', k - 1, prefix);
      SubstituteCopiesPlainText(s', k - 1, prefix, resolve);
      assert s'[k - 1..] == s[k..];
      assert Substitute(s', prefix, resolve) == s'[..k - 1] + rest;
      TakeAfterHead(s, k);
      ConcatAssociative([s[0]], s'[..k - 1], rest);
    }
  }

  /** A text in which no position starts a reference is returned unchanged. */
  lemma SubstituteWithoutReference(s: string, prefix: string, resolve: string -> string)
    requires !HasReference(s, prefix)
    ensures Substitute(s, prefix, resolve) == s
  {
    assert NoReferenceBefore(s, |s|, prefix);
    SubstituteCopiesPlainText(s, |s|, prefix, resolve);
    assert s[..|s|] == s;
    assert s[|s|..] == "";
  }

  /** A body holding just the photo reference `ABC123` becomes the callback's
      text for `ABC123`: the raw moment URI is gone. */
  lemma PhotoReferenceExample(resolve: string -> string)
    ensures Substitute("![](dayone-moment://ABC123)", Prefix(Photo), resolve) == resolve("ABC123")
  {
    assert IsIdentifier("ABC123");
    SubstituteReplacesReference(Prefix(Photo), "ABC123", "", resolve);
    assert "![](dayone-moment://ABC123)" == Prefix(Photo) + "ABC123" + ")" + "";
  }
}
