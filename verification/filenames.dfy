/** The destination of an entry's document: `"<title> <date>.md"` in its
    month folder, or, when that file exists, `"<title> <date> <c>.md"` for the
    first letter `c` from `a` onwards whose file does not exist yet. */
module FileNames {
  import opened Wrappers
  import opened Files

  /** The code of the letter `a`, the first suffix tried. */
  const FirstSuffix: nat := 97

  /** The first code point that is not a character: a suffix must stay below
      the surrogate range to be a character at all. */
  const SurrogateStart: nat := 0xD800

  function BaseName(title: string, day: string): string {
    title + " " + day + ".md"
  }

  /** The name with the character of `code` as suffix. */
  function SuffixedName(title: string, day: string, code: nat): string
    requires code < SurrogateStart
  {
    title + " " + day + " " + [code as char] + ".md"
  }

  function Candidate(dir: string, title: string, day: string, code: nat): string
    requires code < SurrogateStart
  {
    Join(dir, SuffixedName(title, day, code))
  }

  /** Different suffixes give different paths. */
  lemma CandidateInjective(dir: string, title: string, day: string, i: nat, j: nat)
    requires i < SurrogateStart && j < SurrogateStart && i != j
    ensures Candidate(dir, title, day, i) != Candidate(dir, title, day, j)
  {
    var k := |dir| + 1 + |title| + 1 + |day| + 1;
    assert Candidate(dir, title, day, i)[k] == i as char;
    assert Candidate(dir, title, day, j)[k] == j as char;
  }

  /** Every candidate from `a` up to `k` that is taken is a distinct file, so
      at most `|fs|` of them can be taken: the search ends. */
  lemma {:induction false} TakenCandidatesBound(fs: FileSet, dir: string, title: string, day: string, k: nat)
    requires FirstSuffix <= k <= SurrogateStart
    requires forall j :: FirstSuffix <= j < k ==> Candidate(dir, title, day, j) in fs
    ensures k - FirstSuffix <= |fs|
  {
    if k > FirstSuffix {
      var last := Candidate(dir, title, day, k - 1);
      var fs' := fs - {last};
      forall j | FirstSuffix <= j < k - 1
        ensures Candidate(dir, title, day, j) in fs'
      {
        CandidateInjective(dir, title, day, j, k - 1);
      }
      TakenCandidatesBound(fs', dir, title, day, k - 1);
    }
  }

  /** The candidates lie in `dir`, so only the files there can take them. */
  lemma TakenCandidatesInDir(fs: FileSet, dir: string, title: string, day: string, k: nat)
    requires FirstSuffix <= k <= SurrogateStart
    requires forall j :: FirstSuffix <= j < k ==> Candidate(dir, title, day, j) in fs
    ensures k - FirstSuffix <= |FilesIn(fs, dir)|
  {
    forall j | FirstSuffix <= j < k
      ensures Candidate(dir, title, day, j) in FilesIn(fs, dir)
    {
      assert InDir(Candidate(dir, title, day, j), dir);
    }
    TakenCandidatesBound(FilesIn(fs, dir), dir, title, day, k);
  }

  /** The search loop, from suffix `code` on: the first suffix whose file is
      free, having passed only taken ones. */
  function FirstFreeSuffix(fs: FileSet, dir: string, title: string, day: string, code: nat): (c: nat)
    requires |FilesIn(fs, dir)| < SurrogateStart - FirstSuffix
    requires FirstSuffix <= code <= SurrogateStart
    requires forall j :: FirstSuffix <= j < code ==> Candidate(dir, title, day, j) in fs
    ensures code <= c < SurrogateStart
    ensures Candidate(dir, title, day, c) !in fs
    ensures forall j :: code <= j < c ==> Candidate(dir, title, day, j) in fs
    decreases |FilesIn(fs, dir)| + FirstSuffix - code
  {
    TakenCandidatesInDir(fs, dir, title, day, code);
    if Candidate(dir, title, day, code) in fs then
      TakenCandidatesInDir(fs, dir, title, day, code + 1);
      FirstFreeSuffix(fs, dir, title, day, code + 1)
    else code
  }

  /** The suffix chosen for a document in `dir`: none when the base name is
      free, otherwise the smallest code from `a` whose file is free, every
      smaller one being taken. */
  function ChooseSuffix(fs: FileSet, dir: string, title: string, day: string): (s: Option<nat>)
    requires |FilesIn(fs, dir)| < SurrogateStart - FirstSuffix
    ensures s.None? <==> Join(dir, BaseName(title, day)) !in fs
    ensures s.Some? ==> && FirstSuffix <= s.value < SurrogateStart
                        && Candidate(dir, title, day, s.value) !in fs
                        && forall j :: FirstSuffix <= j < s.value ==> Candidate(dir, title, day, j) in fs
  {
    if Join(dir, BaseName(title, day)) !in fs then None
    else Some(FirstFreeSuffix(fs, dir, title, day, FirstSuffix))
  }

  /** The path the document is written to: a file that does not exist yet,
      in the month folder. */
  function TargetPath(fs: FileSet, dir: string, title: string, day: string): (p: string)
    requires |FilesIn(fs, dir)| < SurrogateStart - FirstSuffix
    ensures p !in fs
    ensures InDir(p, dir)
  {
    match ChooseSuffix(fs, dir, title, day)
    case None => Join(dir, BaseName(title, day))
    case Some(code) => Candidate(dir, title, day, code)
  }

  lemma {:induction false} FirstFreeSuffixLocal(fs1: FileSet, fs2: FileSet, dir: string, title: string, day: string, code: nat)
    requires FilesIn(fs1, dir) == FilesIn(fs2, dir)
    requires |FilesIn(fs1, dir)| < SurrogateStart - FirstSuffix
    requires FirstSuffix <= code <= SurrogateStart
    requires forall j :: FirstSuffix <= j < code ==> Candidate(dir, title, day, j) in fs1
    requires forall j :: FirstSuffix <= j < code ==> Candidate(dir, title, day, j) in fs2
    ensures FirstFreeSuffix(fs1, dir, title, day, code) == FirstFreeSuffix(fs2, dir, title, day, code)
    decreases |FilesIn(fs1, dir)| + FirstSuffix - code
  {
    TakenCandidatesInDir(fs1, dir, title, day, code);
    assert InDir(Candidate(dir, title, day, code), dir);
    if Candidate(dir, title, day, code) in fs1 {
      TakenCandidatesInDir(fs1, dir, title, day, code + 1);
      FirstFreeSuffixLocal(fs1, fs2, dir, title, day, code + 1);
    }
  }

  /** The path chosen depends only on the files in the folder: file sets that
      agree there give the same path. */
  lemma TargetPathLocal(fs1: FileSet, fs2: FileSet, dir: string, title: string, day: string)
    requires FilesIn(fs1, dir) == FilesIn(fs2, dir)
    requires |FilesIn(fs1, dir)| < SurrogateStart - FirstSuffix
    ensures TargetPath(fs1, dir, title, day) == TargetPath(fs2, dir, title, day)
  {
    assert InDir(Join(dir, BaseName(title, day)), dir);
    if Join(dir, BaseName(title, day)) in fs1 {
      FirstFreeSuffixLocal(fs1, fs2, dir, title, day, FirstSuffix);
    }
  }

  /** When the base name is free it is used. */
  lemma FreeBaseNameIsUsed(fs: FileSet, dir: string, title: string, day: string)
    requires |FilesIn(fs, dir)| < SurrogateStart - FirstSuffix
    requires Join(dir, BaseName(title, day)) !in fs
    ensures TargetPath(fs, dir, title, day) == Join(dir, title + " " + day + ".md")
  {
  }

  /** When the base name is taken but the `a` name is free, the `a` name is
      used: the second of two same-titled entries on one day. */
  lemma SecondEntryGetsSuffixA(fs: FileSet, dir: string, title: string, day: string)
    requires |FilesIn(fs, dir)| < SurrogateStart - FirstSuffix
    requires Join(dir, BaseName(title, day)) in fs
    requires Join(dir, title + " " + day + " a.md") !in fs
    ensures TargetPath(fs, dir, title, day) == Join(dir, title + " " + day + " a.md")
  {
    assert SuffixedName(title, day, FirstSuffix) == title + " " + day + " a.md";
  }
}
