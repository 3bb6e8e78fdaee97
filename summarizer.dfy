/**
 * The extractive summarizer of the note reader: split the notes into lines,
 * drop the blank ones, cut each remaining paragraph down to its first
 * sentence, keep the first five and join them with single spaces, adding
 * "..." when paragraphs were dropped.
 */
module Summarizer {
  import opened JsText

  datatype Option<T> = None | Some(value: T)

  /** The most entries a summary holds. */
  const MaxSentences: nat := 5

  /** The text appended when entries were dropped. */
  const Ellipsis: string := "..."

  function Min(a: nat, b: nat): nat { if a <= b then a else b }

  // ---------------------------------------------------------------------
  // The first-sentence pattern  ^.*?[.!?](?:\s|$)

  /** One of the characters of the class `[.!?]`. */
  predicate IsTerminator(c: char)
  {
    c == '.' || c == '!' || c == '?'
  }

  /** `p[k]` is a sentence terminator followed by a space or by the end of
      `p`: the pattern's `[.!?](?:\s|$)` matches at `k`. */
  predicate EndsSentenceAt(p: string, k: int)
  {
    0 <= k < |p| && IsTerminator(p[k]) && (k + 1 == |p| || IsSpace(p[k + 1]))
  }

  /** No line terminator in `p[lo..hi]`: the pattern's `.*?` can consume it. */
  predicate LineFree(p: string, lo: int, hi: int)
    requires 0 <= lo <= hi <= |p|
  {
    forall j :: lo <= j < hi ==> !IsLineTerminator(p[j])
  }

  /** The lazy scan of the pattern from position `i`: the first `k >= i` at
      which a sentence ends, provided the `.*?` can reach it without crossing
      a line terminator. */
  function ScanFrom(p: string, i: nat): (r: Option<nat>)
    requires i <= |p|
    ensures r.Some? ==>
      i <= r.value < |p| && EndsSentenceAt(p, r.value) && LineFree(p, i, r.value) &&
      forall k :: i <= k < r.value ==> !EndsSentenceAt(p, k)
    ensures r.None? ==>
      forall k :: i <= k < |p| && EndsSentenceAt(p, k) ==> !LineFree(p, i, k)
    decreases |p| - i
  {
    if i == |p| then None
    else if EndsSentenceAt(p, i) then Some(i)
    else if IsLineTerminator(p[i]) then None
    else ScanFrom(p, i + 1)
  }

  /** The text `p.match(/^.*?[.!?](?:\s|$)/)` returns: the prefix of `p` up to
      and including the first terminator that can be reached, and the space
      after it if there is one. */
  function SentenceMatch(p: string): (m: Option<string>)
    ensures m.Some? <==> ScanFrom(p, 0).Some?
    ensures m.Some? ==> m.value <= p
    ensures m.Some? ==> var k := ScanFrom(p, 0).value;
      || (k + 1 == |p| && m.value == p)
      || (k + 1 < |p| && IsSpace(p[k + 1]) && m.value == p[..k + 2])
  {
    match ScanFrom(p, 0)
    case None => None
    case Some(k) => Some(p[..MatchEnd(p, k)])
  }

  /** Where the match ends when the terminator is at `k`: after the space
      that follows it, or at the end of `p`. */
  function MatchEnd(p: string, k: nat): (e: nat)
    requires k < |p|
    ensures k < e <= |p|
  {
    if k + 1 == |p| then k + 1 else k + 2
  }

  /** The summary entry of one paragraph: the trimmed match, or the trimmed
      paragraph when the pattern does not match. */
  function FirstSentence(p: string): string
  {
    match SentenceMatch(p)
    case Some(m) => Trim(m)
    case None => Trim(p)
  }

  // ---------------------------------------------------------------------
  // The pipeline

  /** `filter(p => p.trim() !== '')`. */
  function NonBlank(ps: seq<string>): (r: seq<string>)
    ensures |r| <= |ps|
    ensures forall i :: 0 <= i < |r| ==> !IsBlank(r[i])
  {
    if ps == [] then [] else Keep(ps[0]) + NonBlank(ps[1..])
  }

  /** One step of the filter: a blank line is dropped, any other kept. */
  function Keep(p: string): (r: seq<string>)
    ensures r == [] <==> IsBlank(p)
    ensures r != [] ==> r == [p]
  {
    if IsBlank(p) then [] else [p]
  }

  /** The non-blank lines of the notes, in order. */
  function Paragraphs(notes: string): seq<string>
  {
    NonBlank(Split(notes))
  }

  /** `map(FirstSentence)`: one entry per paragraph, in the same order. */
  function Entries(ps: seq<string>): (es: seq<string>)
    ensures |es| == |ps|
    ensures forall i :: 0 <= i < |ps| ==> es[i] == FirstSentence(ps[i])
  {
    if ps == [] then [] else [FirstSentence(ps[0])] + Entries(ps[1..])
  }

  /** The first five entries joined by single spaces, and "..." when there
      were more. */
  function Assemble(es: seq<string>): string
  {
    var text := Join(es[..Min(|es|, MaxSentences)], " ");
    if |es| > MaxSentences then text + Ellipsis else text
  }

  /** The summary `summarizeNotes` stores for the given notes. */
  function Summarize(notes: string): string
  {
    Assemble(Entries(Paragraphs(notes)))
  }

  // ---------------------------------------------------------------------
  // One paragraph

  /** The scan stops exactly at the first sentence end it can reach. */
  lemma ScanFinds(p: string, k: nat)
    requires EndsSentenceAt(p, k) && LineFree(p, 0, k)
    requires forall j :: 0 <= j < k ==> !EndsSentenceAt(p, j)
    ensures ScanFrom(p, 0) == Some(k)
  {
  }

  /** The entry of a paragraph that the pattern matches is the trim of the
      shortest prefix ending in a terminator that is followed by a space or
      the end, reachable without crossing a line terminator; the entry ends
      with that terminator. */
  lemma FirstSentenceMatched(p: string, k: nat)
    requires EndsSentenceAt(p, k) && LineFree(p, 0, k)
    requires forall j :: 0 <= j < k ==> !EndsSentenceAt(p, j)
    ensures FirstSentence(p) == Trim(p[..k + 1])
    ensures FirstSentence(p) != [] && FirstSentence(p)[|FirstSentence(p)| - 1] == p[k]
  {
    MatchFound(p, k);
    EntryOfMatch(p, k);
  }

  lemma MatchFound(p: string, k: nat)
    requires EndsSentenceAt(p, k) && LineFree(p, 0, k)
    requires forall j :: 0 <= j < k ==> !EndsSentenceAt(p, j)
    ensures SentenceMatch(p) == Some(p[..MatchEnd(p, k)])
  {
    ScanFinds(p, k);
  }

  lemma EntryOfMatch(p: string, k: nat)
    requires EndsSentenceAt(p, k)
    requires SentenceMatch(p) == Some(p[..MatchEnd(p, k)])
    ensures FirstSentence(p) == Trim(p[..k + 1])
    ensures FirstSentence(p) != [] && FirstSentence(p)[|FirstSentence(p)| - 1] == p[k]
  {
    TrimOfMatch(p, k);
  }

  /** Trimming the matched text, with or without the space after the
      terminator, gives the trimmed prefix up to the terminator. */
  lemma TrimOfMatch(p: string, k: nat)
    requires EndsSentenceAt(p, k)
    ensures var m := p[..MatchEnd(p, k)];
      Trim(m) == Trim(p[..k + 1]) && Trim(m) != [] && Trim(m)[|Trim(m)| - 1] == p[k]
  {
    var sentence := p[..k + 1];
    assert sentence[k] == p[k];
    TrimKeepsLast(sentence);
    if k + 1 < |p| {
      assert p[..k + 2] == sentence + [p[k + 1]];
      TrimIgnoresTrailingSpace(sentence, p[k + 1]);
    }
  }

  /** A paragraph without a terminator that the pattern can reach contributes
      its trimmed text verbatim. */
  lemma FirstSentenceUnmatched(p: string)
    requires forall k :: 0 <= k < |p| && EndsSentenceAt(p, k) ==> !LineFree(p, 0, k)
    ensures FirstSentence(p) == Trim(p)
  {
  }

  /** In particular a paragraph with no `.`, `!` or `?` at all is kept whole
      (trimmed). */
  lemma FirstSentenceNoTerminator(p: string)
    requires forall k :: 0 <= k < |p| ==> !IsTerminator(p[k])
    ensures FirstSentence(p) == Trim(p)
  {
    FirstSentenceUnmatched(p);
  }

  /** A line terminator before the first sentence end makes the pattern fail:
      the entry is the whole trimmed paragraph. */
  lemma FirstSentenceLineBreakFirst(p: string, j: nat)
    requires j < |p| && IsLineTerminator(p[j])
    requires forall k :: 0 <= k <= j ==> !EndsSentenceAt(p, k)
    ensures FirstSentence(p) == Trim(p)
  {
    forall k | 0 <= k < |p| && EndsSentenceAt(p, k)
      ensures !LineFree(p, 0, k)
    {
      assert k > j;
    }
    FirstSentenceUnmatched(p);
  }

  /** The entry of a non-blank paragraph is non-blank. */
  lemma FirstSentenceNotBlank(p: string)
    requires !IsBlank(p)
    ensures !IsBlank(FirstSentence(p))
  {
    match ScanFrom(p, 0)
    case None =>
    case Some(k) =>
      FirstSentenceMatched(p, k);
      TrimIdempotent(p[..k + 1]);
  }

  /** Every character of an entry is a character of its paragraph. */
  lemma FirstSentenceChars(p: string, c: char)
    requires c in FirstSentence(p)
    ensures c in p
  {
    match SentenceMatch(p)
    case None => TrimChars(p, c);
    case Some(m) =>
      TrimChars(m, c);
      var i :| 0 <= i < |m| && m[i] == c;
      assert p[i] == c;
  }

  // ---------------------------------------------------------------------
  // The pipeline over whole notes

  lemma {:induction false} NonBlankAppend(xs: seq<string>, ys: seq<string>)
    ensures NonBlank(xs + ys) == NonBlank(xs) + NonBlank(ys)
  {
    if xs != [] {
      assert (xs + ys)[0] == xs[0] && (xs + ys)[1..] == xs[1..] + ys;
      NonBlankAppend(xs[1..], ys);
      var k := Keep(xs[0]);
      assert NonBlank(xs + ys) == k + (NonBlank(xs[1..]) + NonBlank(ys));
      assert k + (NonBlank(xs[1..]) + NonBlank(ys)) == (k + NonBlank(xs[1..])) + NonBlank(ys);
    } else {
      assert xs + ys == ys;
    }
  }

  lemma {:induction false} EntriesAppend(xs: seq<string>, ys: seq<string>)
    ensures Entries(xs + ys) == Entries(xs) + Entries(ys)
  {
    var l, r := Entries(xs + ys), Entries(xs) + Entries(ys);
    assert |l| == |r|;
    forall i | 0 <= i < |l| ensures l[i] == r[i] {
      if i < |xs| { assert (xs + ys)[i] == xs[i]; }
      else { assert (xs + ys)[i] == ys[i - |xs|]; }
    }
  }

  /** The paragraphs of two texts joined by a line feed are the paragraphs
      of the first followed by those of the second. */
  lemma ParagraphsAround(a: string, b: string)
    ensures Paragraphs(a + "\n" + b) == Paragraphs(a) + Paragraphs(b)
  {
    SplitAround(a, b);
    NonBlankAppend(Split(a), Split(b));
  }

  /** Notes have no paragraph exactly when they are blank. */
  lemma {:induction false} ParagraphsEmptyIffBlank(notes: string)
    ensures Paragraphs(notes) == [] <==> IsBlank(notes)
  {
    if notes != [] {
      var c, t := notes[0], notes[1..];
      assert notes == [c] + t;
      ParagraphsEmptyIffBlank(t);
      SplitCons(c, t);
      var rest := Split(t);
      assert rest == [rest[0]] + rest[1..];
      NonBlankAppend([rest[0]], rest[1..]);
      BlankCons(c, t);
      if c == '\n' {
        NonBlankAppend([[]], rest);
      } else {
        var first := [c] + rest[0];
        NonBlankAppend([first], rest[1..]);
        BlankCons(c, rest[0]);
      }
    }
  }

  /** Every paragraph is a non-blank piece of the notes between line feeds. */
  lemma ParagraphShape(notes: string, i: nat)
    requires i < |Paragraphs(notes)|
    ensures !IsBlank(Paragraphs(notes)[i])
    ensures '\n' !in Paragraphs(notes)[i]
    ensures Paragraphs(notes)[i] in Split(notes)
  {
    NonBlankSubset(Split(notes), Paragraphs(notes)[i]);
  }

  lemma {:induction false} NonBlankSubset(ps: seq<string>, x: string)
    requires x in NonBlank(ps)
    ensures x in ps
  {
    if ps != [] {
      if x != ps[0] {
        NonBlankSubset(ps[1..], x);
      }
    }
  }

  // ---------------------------------------------------------------------
  // The summary

  /** The summary is empty exactly when the notes are blank (empty, or made of
      whitespace and line breaks only); and a non-empty summary is never
      blank. */
  lemma SummaryEmptyIffBlank(notes: string)
    ensures Summarize(notes) == [] <==> IsBlank(notes)
    ensures !IsBlank(notes) ==> !IsBlank(Summarize(notes))
  {
    ParagraphsEmptyIffBlank(notes);
    var ps := Paragraphs(notes);
    var es := Entries(ps);
    if ps != [] {
      FirstSentenceNotBlank(ps[0]);
      var kept := es[..Min(|es|, MaxSentences)];
      assert kept[0] == es[0];
      JoinStartsWithFirst(kept, " ");
      var s := Summarize(notes);
      var j :| 0 <= j < |es[0]| && !IsSpace(es[0][j]);
      assert s[j] == es[0][j];
    }
  }

  /** At most five non-blank paragraphs: the summary is all their entries
      joined by single spaces, with nothing appended, however much of each
      paragraph was cut. More than five: the first five entries joined by
      single spaces, then "..." with no space before it. */
  lemma SummaryShape(notes: string)
    ensures var es := Entries(Paragraphs(notes));
      && (|es| <= 5 ==> Summarize(notes) == Join(es, " "))
      && (|es| > 5 ==>
            Summarize(notes) == es[0] + " " + es[1] + " " + es[2] + " " + es[3] + " " + es[4] + "...")
  {
    AssembleShape(Entries(Paragraphs(notes)));
  }

  lemma AssembleShape(es: seq<string>)
    ensures |es| <= 5 ==> Assemble(es) == Join(es, " ")
    ensures |es| > 5 ==>
      Assemble(es) == es[0] + " " + es[1] + " " + es[2] + " " + es[3] + " " + es[4] + "..."
  {
    if |es| > 5 {
      var kept := es[..5];
      assert Assemble(es) == Join(kept, " ") + Ellipsis;
      JoinFive(kept, " ");
      assert kept[0] == es[0] && kept[1] == es[1] && kept[2] == es[2];
      assert kept[3] == es[3] && kept[4] == es[4];
    } else {
      assert es[..|es|] == es;
    }
  }

  lemma JoinFive(xs: seq<string>, sep: string)
    requires |xs| == 5
    ensures Join(xs, sep) == xs[0] + sep + xs[1] + sep + xs[2] + sep + xs[3] + sep + xs[4]
  {
    var x1 := xs[1..];
    var x2 := x1[1..];
    var x3 := x2[1..];
    var x4 := x3[1..];
    assert x1[0] == xs[1] && x2[0] == xs[2] && x3[0] == xs[3] && x4[0] == xs[4];
    assert |x4| == 1;
    assert Join(x3, sep) == xs[3] + sep + xs[4];
    assert Join(x2, sep) == xs[2] + sep + (xs[3] + sep + xs[4]);
    assert Join(x1, sep) == xs[1] + sep + (xs[2] + sep + (xs[3] + sep + xs[4]));
    assert Join(xs, sep) == xs[0] + sep + (xs[1] + sep + (xs[2] + sep + (xs[3] + sep + xs[4])));
  }

  /** The summary is a single line: it never contains a line feed. */
  lemma SummaryIsOneLine(notes: string)
    ensures '\n' !in Summarize(notes)
  {
    var ps := Paragraphs(notes);
    var es := Entries(ps);
    forall i | 0 <= i < |es| ensures '\n' !in es[i] {
      ParagraphShape(notes, i);
      if '\n' in es[i] { FirstSentenceChars(ps[i], '\n'); }
    }
    var kept := es[..Min(|es|, MaxSentences)];
    JoinAvoids(kept, " ", '\n');
  }

  /** Blank lines after the notes do not change the summary. */
  lemma SummaryIgnoresTrailingBlank(a: string, b: string)
    requires IsBlank(b)
    ensures Summarize(a + "\n" + b) == Summarize(a)
  {
    ParagraphsAround(a, b);
    ParagraphsEmptyIffBlank(b);
    assert Paragraphs(a) + [] == Paragraphs(a);
  }

  /** Blank lines before the notes do not change the summary. */
  lemma SummaryIgnoresLeadingBlank(a: string, b: string)
    requires IsBlank(a)
    ensures Summarize(a + "\n" + b) == Summarize(b)
  {
    ParagraphsAround(a, b);
    ParagraphsEmptyIffBlank(a);
    assert [] + Paragraphs(b) == Paragraphs(b);
  }

  /** Once the notes hold more than five non-blank paragraphs, whatever
      follows them leaves the summary unchanged. */
  lemma SummaryIgnoresBeyondSixth(a: string, b: string)
    requires |Paragraphs(a)| > MaxSentences
    ensures Summarize(a + "\n" + b) == Summarize(a)
  {
    var pa, pb := Paragraphs(a), Paragraphs(b);
    ParagraphsAround(a, b);
    EntriesAppend(pa, pb);
    var ea, eb := Entries(pa), Entries(pb);
    assert (ea + eb)[..MaxSentences] == ea[..MaxSentences];
  }
}
