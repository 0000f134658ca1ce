/** The training corpus: every line of every poem, joined with line breaks,
    stripped of surrounding whitespace and lower-cased. */
module CorpusLoading {
  import opened Text
  import opened Poems

  /** The text of one poem: its lines joined with line breaks. */
  function PoemText(p: Poem): string
  {
    Join("\n", p.text)
  }

  /** The joined text of each poem, in dataset order. */
  function PoemTexts(poems: seq<Poem>): seq<string>
  {
    seq(|poems|, i requires 0 <= i < |poems| => PoemText(poems[i]))
  }

  /** The poems joined with line breaks, before stripping and lower-casing. */
  function RawCorpus(poems: seq<Poem>): string
  {
    Join("\n", PoemTexts(poems))
  }

  /** The corpus of `_load_dataset`: lower-case, with no whitespace at either end,
      and a slice of the lower-cased raw text with only whitespace cut from around it. */
  function Corpus(poems: seq<Poem>): (r: string)
    ensures IsLower(r)
    ensures |r| > 0 ==> !IsSpace(r[0]) && !IsSpace(r[|r| - 1])
    ensures exists i :: IsStripped(Lower(RawCorpus(poems)), r, i)
  {
    var raw := RawCorpus(poems);
    StripLowerCommute(raw);
    Lower(Strip(raw))
  }

  /** All lines of all poems, in order. */
  function AllLines(poems: seq<Poem>): (r: seq<string>)
    ensures forall p :: p in poems ==> forall l :: l in p.text ==> l in r
  {
    if |poems| == 0 then [] else poems[0].text + AllLines(poems[1..])
  }

  /** When no poem is empty, poem boundaries are invisible: the raw corpus is all lines
      joined with line breaks. */
  lemma {:induction false} RawCorpusIsAllLines(poems: seq<Poem>)
    requires |poems| > 0
    requires forall i :: 0 <= i < |poems| ==> |poems[i].text| > 0
    ensures RawCorpus(poems) == Join("\n", AllLines(poems))
    decreases |poems|
  {
    if |poems| > 1 {
      var tail := poems[1..];
      RawCorpusIsAllLines(tail);
      assert PoemTexts(poems)[1..] == PoemTexts(tail);
      assert |AllLines(tail)| > 0 by {
        assert tail[0].text[0] in AllLines(tail);
      }
      JoinAppend("\n", poems[0].text, AllLines(tail));
    } else {
      assert AllLines(poems) == poems[0].text + AllLines(poems[1..]);
      assert AllLines(poems) == poems[0].text;
    }
  }

  /** Splitting the raw corpus at line breaks gives back the scraped lines, when every poem
      has a line and no line holds a line break. */
  lemma RawCorpusSplitsIntoLines(poems: seq<Poem>)
    requires |poems| > 0
    requires forall i :: 0 <= i < |poems| ==> |poems[i].text| > 0
    requires forall p :: p in poems ==> forall l :: l in p.text ==> '\n' !in l
    ensures Split(RawCorpus(poems), '\n') == AllLines(poems)
  {
    RawCorpusIsAllLines(poems);
    LinesWithoutBreaks(poems);
    assert poems[0].text[0] in AllLines(poems);
    SplitJoin(AllLines(poems), '\n');
  }

  lemma {:induction false} LinesWithoutBreaks(poems: seq<Poem>)
    requires forall p :: p in poems ==> forall l :: l in p.text ==> '\n' !in l
    ensures forall l :: l in AllLines(poems) ==> '\n' !in l
    decreases |poems|
  {
    if |poems| > 0 {
      LinesWithoutBreaks(poems[1..]);
    }
  }
}
