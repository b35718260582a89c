/** The tidying applied to an entry's body before its moment references are
    rewritten: escape backslashes are dropped from real text, and the two line
    separators the journal app stores are turned into newlines. */
module Sanitise {
  import opened Wrappers

  const Backslash: char := '\\'

  /** U+2028 LINE SEPARATOR, which becomes one newline. */
  const LineSeparator: char := '\U{2028}'

  /** U+1C6A, which the journal app uses between paragraphs and which becomes
      two newlines. */
  const ParagraphMark: char := '\U{1C6A}'

  /** `s.replace(c, rep)` for a one-character pattern: every occurrence of `c`,
      left to right, becomes `rep`, and every other character is kept. */
  function Replace(s: string, c: char, rep: string): (r: string)
    ensures c !in rep ==> c !in r
    ensures c !in s ==> r == s
    ensures forall d :: d != c && d !in rep ==> multiset(r)[d] == multiset(s)[d]
  {
    if |s| == 0 then ""
    else
      var head := if s[0] == c then rep else [s[0]];
      var tail := Replace(s[1..], c, rep);
      assert s == [s[0]] + s[1..];
      assert multiset(head + tail) == multiset(head) + multiset(tail);
      head + tail
  }

  /** Replacement works character by character: it distributes over
      concatenation, so the text between occurrences keeps its order. */
  lemma {:induction false} ReplaceDistributes(a: string, b: string, c: char, rep: string)
    ensures Replace(a + b, c, rep) == Replace(a, c, rep) + Replace(b, c, rep)
  {
    if |a| > 0 {
      assert (a + b)[1..] == a[1..] + b;
      ReplaceDistributes(a[1..], b, c, rep);
    } else {
      assert a + b == b;
    }
  }

  /** Separator normalisation: each line separator becomes a line break and
      each paragraph mark a blank line. */
  function Normalise(s: string): (r: string)
    ensures LineSeparator !in r && ParagraphMark !in r
    ensures forall d :: d != LineSeparator && d != ParagraphMark && d != '\n' ==> multiset(r)[d] == multiset(s)[d]
  {
    var once := Replace(s, LineSeparator, "\n");
    var r := Replace(once, ParagraphMark, "\n\n");
    assert multiset(r)[LineSeparator] == multiset(once)[LineSeparator] == 0;
    r
  }

  /** Normalisation also works character by character. */
  lemma NormaliseDistributes(a: string, b: string)
    ensures Normalise(a + b) == Normalise(a) + Normalise(b)
  {
    ReplaceDistributes(a, b, LineSeparator, "\n");
    ReplaceDistributes(Replace(a, LineSeparator, "\n"), Replace(b, LineSeparator, "\n"), ParagraphMark, "\n\n");
  }

  /** What each single character turns into. */
  lemma NormaliseCharacter(x: char)
    ensures Normalise([x]) == if x == LineSeparator then "\n" else if x == ParagraphMark then "\n\n" else [x]
  {
    assert [x][1..] == "";
  }

  /** The body text: the entry's `text` without backslashes,
      or the configured default text as it is, then normalised. */
  function SanitiseBody(text: Option<string>, default: string): (r: string)
    ensures LineSeparator !in r && ParagraphMark !in r
    ensures text.Some? ==> Backslash !in r
    ensures text.None? ==> multiset(r)[Backslash] == multiset(default)[Backslash]
    ensures text.Some? ==> forall d :: d != Backslash && d != LineSeparator && d != ParagraphMark && d != '\n' ==>
              multiset(r)[d] == multiset(text.value)[d]
  {
    match text
    case Some(t) =>
      var stripped := Replace(t, Backslash, "");
      var r := Normalise(stripped);
      assert multiset(r)[Backslash] == multiset(stripped)[Backslash] == 0;
      r
    case None => Normalise(default)
  }

  /** Sanitising real text is idempotent: the body it produces has nothing
      left to strip or normalise. (The default text is not: its backslashes
      survive the first pass.) */
  lemma SanitiseIdempotent(text: string, default: string)
    ensures var body := SanitiseBody(Some(text), default);
            SanitiseBody(Some(body), default) == body
  {
  }

  /** Real text with no backslash and no separator is kept exactly as it is. */
  lemma CleanTextKept(text: string, default: string)
    requires Backslash !in text && LineSeparator !in text && ParagraphMark !in text
    ensures SanitiseBody(Some(text), default) == text
  {
  }

  /** A body made of one photo reference holds no backslash and no
      separator. */
  lemma PhotoBodyClean()
    ensures var body := "![](dayone-moment://ABC123)";
            Backslash !in body && LineSeparator !in body && ParagraphMark !in body
  {
  }
}
