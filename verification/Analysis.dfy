/** `Analyzer.compute_statistics`: one pass over the poem records counting poems, lines and
    characters per collection, lines and characters per title, and the totals; afterwards a
    `"number"` entry is added to the per-collection and the per-title dictionaries. */
module Analysis {
  import opened Results
  import opened Poems
  import opened Text

  /** The value of `statistics["poems"][title]`. */
  datatype PoemCounts = PoemCounts(lines: nat, characters: nat)

  /** The value of `statistics["collections"][collection]`. */
  datatype CollectionCounts = CollectionCounts(poems: nat, lines: nat, characters: nat)

  /** The statistics while the loop runs, before the `"number"` entries exist. */
  datatype Tally = Tally(
    poems: map<string, PoemCounts>,
    collections: map<string, CollectionCounts>,
    lines: nat,
    characters: nat)

  /** A value of the per-title and per-collection dictionaries: counts, or the integer
      stored under `"number"`. */
  datatype Entry<T> = Counts(counts: T) | Number(number: nat)

  /** The finished `statistics` dictionary. */
  datatype Statistics = Statistics(
    poems: map<string, Entry<PoemCounts>>,
    collections: map<string, Entry<CollectionCounts>>,
    lines: nat,
    characters: nat)

  /** The object: the loaded records and the statistics, `None` for the `{}` that `__init__`
      stores. */
  datatype Analyzer = Analyzer(dataset: seq<Poem>, statistics: Option<Statistics>)

  /** The key under which the number of entries is stored. */
  const NumberKey: string := "number"

  /** The dictionary `compute_statistics` starts from. */
  const Empty: Tally := Tally(map[], map[], 0, 0)

  // Reference definitions, stated over the records directly.

  /** What is counted per record. */
  datatype Measure = Records | Lines | Characters

  function MeasureOf(p: Poem, k: Measure): nat
  {
    match k
    case Records => 1
    case Lines => |p.text|
    case Characters => TotalLength(p.text)
  }

  /** The measure summed over the records. */
  function SumOf(ds: seq<Poem>, k: Measure): nat
  {
    if |ds| == 0 then 0 else MeasureOf(ds[0], k) + SumOf(ds[1..], k)
  }

  /** The records of one collection, in order. */
  function Of(ds: seq<Poem>, collection: string): seq<Poem>
  {
    if |ds| == 0 then []
    else (if ds[0].collection == collection then [ds[0]] else []) + Of(ds[1..], collection)
  }

  /** The counts one collection should have: its records, their lines and their characters. */
  function CountsOf(ds: seq<Poem>, collection: string): CollectionCounts
  {
    var own := Of(ds, collection);
    CollectionCounts(SumOf(own, Records), SumOf(own, Lines), SumOf(own, Characters))
  }

  /** The counts of one record. */
  function PoemCountsOf(p: Poem): PoemCounts
  {
    PoemCounts(|p.text|, TotalLength(p.text))
  }

  /** The last record with the given title, if any. */
  function LastOf(ds: seq<Poem>, title: string): (r: Option<Poem>)
    ensures r.Some? <==> title in TitleSet(ds)
    ensures r.Some? ==> r.value in ds && r.value.title == title
  {
    if |ds| == 0 then None
    else
      var init := ds[..|ds| - 1];
      var last := ds[|ds| - 1];
      TitleSetAppend(init, last);
      assert ds == init + [last];
      if last.title == title then Some(last)
      else
        var r := LastOf(init, title);
        assert r.Some? ==> r.value in ds;
        r
  }

  predicate Distinct(s: seq<string>)
  {
    forall i, j :: 0 <= i < j < |s| ==> s[i] != s[j]
  }

  /** The collections in order of first appearance, each once. */
  function Order(ds: seq<Poem>): (r: seq<string>)
    ensures Distinct(r)
    ensures forall c :: c in r <==> c in CollectionSet(ds)
  {
    if |ds| == 0 then []
    else
      var init := ds[..|ds| - 1];
      var last := ds[|ds| - 1];
      CollectionSetAppend(init, last);
      assert ds == init + [last];
      var o := Order(init);
      if last.collection in o then o else o + [last.collection]
  }

  /** The measure summed, collection by collection, over the collections `cs`. */
  function SumOver(ds: seq<Poem>, cs: seq<string>, k: Measure): nat
  {
    if |cs| == 0 then 0 else SumOver(ds, cs[..|cs| - 1], k) + SumOf(Of(ds, cs[|cs| - 1]), k)
  }

  function TitleSet(ds: seq<Poem>): set<string>
  {
    set p | p in ds :: p.title
  }

  function CollectionSet(ds: seq<Poem>): set<string>
  {
    set p | p in ds :: p.collection
  }

  lemma TitleSetAppend(ds: seq<Poem>, p: Poem)
    ensures TitleSet(ds + [p]) == TitleSet(ds) + {p.title}
  {
    assert forall q :: q in ds + [p] <==> q in ds || q == p;
  }

  lemma CollectionSetAppend(ds: seq<Poem>, p: Poem)
    ensures CollectionSet(ds + [p]) == CollectionSet(ds) + {p.collection}
  {
    assert forall q :: q in ds + [p] <==> q in ds || q == p;
  }

  // The loops of `compute_statistics`.

  /** Adds `lines` lines to the totals and to the collection, and `characters` characters to
      the totals, the collection and the title. */
  function Bump(t: Tally, collection: string, title: string, lines: nat, characters: nat): (r: Tally)
    requires collection in t.collections && title in t.poems
    ensures r.collections.Keys == t.collections.Keys && r.poems.Keys == t.poems.Keys
  {
    var c := t.collections[collection];
    var p := t.poems[title];
    Tally(
      t.poems[title := p.(characters := p.characters + characters)],
      t.collections[collection := c.(lines := c.lines + lines, characters := c.characters + characters)],
      t.lines + lines,
      t.characters + characters)
  }

  /** The innermost loop, `for _ in line`: three counters go up by one per character. */
  function CountCharacters(t: Tally, collection: string, title: string, line: string): (r: Tally)
    requires collection in t.collections && title in t.poems
    ensures collection in r.collections && title in r.poems
    decreases |line|
  {
    if |line| == 0 then t
    else
      var c := t.collections[collection];
      var p := t.poems[title];
      var next := Tally(
        t.poems[title := p.(characters := p.characters + 1)],
        t.collections[collection := c.(characters := c.characters + 1)],
        t.lines,
        t.characters + 1);
      CountCharacters(next, collection, title, line[1..])
  }

  /** The loop `for line in poem["text"]`: one line for the collection and the totals, then
      its characters. */
  function CountLines(t: Tally, collection: string, title: string, lines: seq<string>): (r: Tally)
    requires collection in t.collections && title in t.poems
    ensures collection in r.collections && title in r.poems
    decreases |lines|
  {
    if |lines| == 0 then t
    else
      var c := t.collections[collection];
      var lineOpened := t.(
        collections := t.collections[collection := c.(lines := c.lines + 1)],
        lines := t.lines + 1);
      CountLines(CountCharacters(lineOpened, collection, title, lines[0]), collection, title, lines[1..])
  }

  /** The head of the record loop: one more poem for the collection (a fresh entry the first
      time), and a fresh per-title entry that replaces any earlier one with the same title. */
  function OpenPoem(t: Tally, p: Poem): (r: Tally)
    ensures p.collection in r.collections && p.title in r.poems
  {
    var c :=
      if p.collection in t.collections then
        var known := t.collections[p.collection];
        known.(poems := known.poems + 1)
      else CollectionCounts(1, 0, 0);
    t.(
      collections := t.collections[p.collection := c],
      poems := t.poems[p.title := PoemCounts(|p.text|, 0)])
  }

  /** One iteration of `for poem in self.dataset`. */
  function Step(t: Tally, p: Poem): Tally
  {
    var started := OpenPoem(t, p);
    CountLines(started, p.collection, p.title, p.text)
  }

  /** The tally after the loop has visited the records of `ds` in order. */
  function Accumulate(ds: seq<Poem>): Tally
  {
    if |ds| == 0 then Empty else Step(Accumulate(ds[..|ds| - 1]), ds[|ds| - 1])
  }

  /** The two statements after the loop: each dictionary gets a `"number"` entry holding the
      number of keys it had just before. */
  function Finish(t: Tally): (s: Statistics)
    ensures s.lines == t.lines && s.characters == t.characters
    ensures s.poems.Keys == t.poems.Keys + {NumberKey}
    ensures s.collections.Keys == t.collections.Keys + {NumberKey}
    ensures s.poems[NumberKey] == Number(|t.poems.Keys|)
    ensures s.collections[NumberKey] == Number(|t.collections.Keys|)
    ensures forall k :: k in t.poems && k != NumberKey ==> s.poems[k] == Counts(t.poems[k])
    ensures forall k :: k in t.collections && k != NumberKey ==> s.collections[k] == Counts(t.collections[k])
  {
    var poems := map k | k in t.poems :: Counts(t.poems[k]);
    var collections := map k | k in t.collections :: Counts(t.collections[k]);
    Statistics(
      poems[NumberKey := Number(|t.poems.Keys|)],
      collections[NumberKey := Number(|t.collections.Keys|)],
      t.lines,
      t.characters)
  }

  /** The statistics of a dataset. */
  function StatisticsOf(ds: seq<Poem>): Statistics
  {
    Finish(Accumulate(ds))
  }

  /** `compute_statistics`: replaces whatever was stored by the statistics of the dataset,
      which it does not change. */
  function ComputeStatistics(a: Analyzer): (r: Analyzer)
    ensures r.dataset == a.dataset
    ensures r.statistics.Some?
  {
    a.(statistics := Some(StatisticsOf(a.dataset)))
  }

  // How each loop changes the tally.

  /** Two bumps add up. */
  lemma BumpTwice(t: Tally, collection: string, title: string, l1: nat, c1: nat, l2: nat, c2: nat)
    requires collection in t.collections && title in t.poems
    ensures Bump(Bump(t, collection, title, l1, c1), collection, title, l2, c2) == Bump(t, collection, title, l1 + l2, c1 + c2)
  {
  }

  /** The character loop adds the length of the line to the three character counters. */
  lemma {:induction false} CountCharactersAdds(t: Tally, collection: string, title: string, line: string)
    requires collection in t.collections && title in t.poems
    ensures CountCharacters(t, collection, title, line) == Bump(t, collection, title, 0, |line|)
    decreases |line|
  {
    if |line| > 0 {
      var next := Bump(t, collection, title, 0, 1);
      CountCharactersAdds(next, collection, title, line[1..]);
      BumpTwice(t, collection, title, 0, 1, 0, |line| - 1);
    }
  }

  /** The line loop adds the number of lines to the two line counters and their characters to
      the three character counters. */
  lemma {:induction false} CountLinesAdds(t: Tally, collection: string, title: string, lines: seq<string>)
    requires collection in t.collections && title in t.poems
    ensures CountLines(t, collection, title, lines) == Bump(t, collection, title, |lines|, TotalLength(lines))
    decreases |lines|
  {
    if |lines| > 0 {
      var c := t.collections[collection];
      var lineOpened := t.(
        collections := t.collections[collection := c.(lines := c.lines + 1)],
        lines := t.lines + 1);
      assert lineOpened == Bump(t, collection, title, 1, 0);
      CountCharactersAdds(lineOpened, collection, title, lines[0]);
      BumpTwice(t, collection, title, 1, 0, 0, |lines[0]|);
      var counted := Bump(t, collection, title, 1, |lines[0]|);
      CountLinesAdds(counted, collection, title, lines[1..]);
      BumpTwice(t, collection, title, 1, |lines[0]|, |lines| - 1, TotalLength(lines[1..]));
    }
  }

  /** One record adds its lines and characters to the totals, one poem and its lines and
      characters to its collection, and sets its title's entry to its own counts. */
  lemma StepEffect(t: Tally, p: Poem)
    ensures Step(t, p).lines == t.lines + |p.text|
    ensures Step(t, p).characters == t.characters + TotalLength(p.text)
    ensures Step(t, p).collections.Keys == t.collections.Keys + {p.collection}
    ensures Step(t, p).poems.Keys == t.poems.Keys + {p.title}
    ensures forall c :: c in t.collections && c != p.collection ==> Step(t, p).collections[c] == t.collections[c]
    ensures forall n :: n in t.poems && n != p.title ==> Step(t, p).poems[n] == t.poems[n]
    ensures Step(t, p).collections[p.collection] ==
      if p.collection in t.collections then
        var c := t.collections[p.collection];
        CollectionCounts(c.poems + 1, c.lines + |p.text|, c.characters + TotalLength(p.text))
      else CollectionCounts(1, |p.text|, TotalLength(p.text))
    ensures Step(t, p).poems[p.title] == PoemCountsOf(p)
  {
    CountLinesAdds(OpenPoem(t, p), p.collection, p.title, p.text);
  }

  // Reference definitions under appending one record.

  lemma {:induction false} SumOfAppend(ds: seq<Poem>, p: Poem, k: Measure)
    ensures SumOf(ds + [p], k) == SumOf(ds, k) + MeasureOf(p, k)
    decreases |ds|
  {
    if |ds| > 0 {
      assert (ds + [p])[1..] == ds[1..] + [p];
      SumOfAppend(ds[1..], p, k);
    }
  }

  lemma {:induction false} OfAppend(ds: seq<Poem>, p: Poem, collection: string)
    ensures Of(ds + [p], collection) == Of(ds, collection) + (if p.collection == collection then [p] else [])
    decreases |ds|
  {
    if |ds| > 0 {
      assert (ds + [p])[1..] == ds[1..] + [p];
      OfAppend(ds[1..], p, collection);
    }
  }

  lemma CountsOfAppend(ds: seq<Poem>, p: Poem, collection: string)
    ensures CountsOf(ds + [p], collection) ==
      if p.collection == collection then
        var c := CountsOf(ds, collection);
        CollectionCounts(c.poems + 1, c.lines + |p.text|, c.characters + TotalLength(p.text))
      else CountsOf(ds, collection)
  {
    OfAppend(ds, p, collection);
    var own := Of(ds, collection);
    if p.collection == collection {
      assert Of(ds + [p], collection) == own + [p];
      SumOfAppend(own, p, Records);
      SumOfAppend(own, p, Lines);
      SumOfAppend(own, p, Characters);
      assert MeasureOf(p, Records) == 1;
      assert MeasureOf(p, Lines) == |p.text|;
      assert MeasureOf(p, Characters) == TotalLength(p.text);
    } else {
      assert Of(ds + [p], collection) == own;
    }
  }

  /** A collection no record carries has no records. */
  lemma {:induction false} OfAbsent(ds: seq<Poem>, collection: string)
    requires collection !in CollectionSet(ds)
    ensures Of(ds, collection) == []
    decreases |ds|
  {
    if |ds| > 0 {
      assert ds[0] in ds;
      assert forall q :: q in ds[1..] ==> q in ds;
      OfAbsent(ds[1..], collection);
    }
  }

  // The loop invariants, as properties of `Accumulate`.

  /** The totals are the numbers of lines and characters of all records. */
  lemma {:induction false} AccumulateTotals(ds: seq<Poem>)
    ensures Accumulate(ds).lines == SumOf(ds, Lines)
    ensures Accumulate(ds).characters == SumOf(ds, Characters)
    decreases |ds|
  {
    if |ds| > 0 {
      var init := ds[..|ds| - 1];
      var p := ds[|ds| - 1];
      assert ds == init + [p];
      AccumulateTotals(init);
      StepEffect(Accumulate(init), p);
      SumOfAppend(init, p, Lines);
      SumOfAppend(init, p, Characters);
    }
  }

  /** The collections counted are those of the records, and each has the number of its
      records and their lines and characters. */
  lemma {:induction false} AccumulateCollections(ds: seq<Poem>)
    ensures Accumulate(ds).collections.Keys == CollectionSet(ds)
    ensures forall c :: c in Accumulate(ds).collections ==> Accumulate(ds).collections[c] == CountsOf(ds, c)
    decreases |ds|
  {
    if |ds| > 0 {
      var init := ds[..|ds| - 1];
      var p := ds[|ds| - 1];
      assert ds == init + [p];
      AccumulateCollections(init);
      CollectionSetAppend(init, p);
      var before := Accumulate(init);
      StepEffect(before, p);
      forall c | c in Step(before, p).collections
        ensures Step(before, p).collections[c] == CountsOf(init + [p], c)
      {
        StepCountsCollection(before, init, p, c);
      }
    }
  }

  /** One step of the record loop keeps a collection's entry equal to its reference counts. */
  lemma StepCountsCollection(before: Tally, init: seq<Poem>, p: Poem, c: string)
    requires before.collections.Keys == CollectionSet(init)
    requires c in before.collections ==> before.collections[c] == CountsOf(init, c)
    requires c in Step(before, p).collections
    ensures Step(before, p).collections[c] == CountsOf(init + [p], c)
  {
    StepEffect(before, p);
    CountsOfAppend(init, p, c);
    if c == p.collection && c !in before.collections {
      OfAbsent(init, c);
      assert CountsOf(init, c) == CollectionCounts(0, 0, 0);
    }
  }

  /** The titles counted are those of the records, and each title's entry holds the counts of
      the last record with that title. */
  lemma {:induction false} AccumulatePoems(ds: seq<Poem>)
    ensures Accumulate(ds).poems.Keys == TitleSet(ds)
    ensures forall n :: n in Accumulate(ds).poems ==> Accumulate(ds).poems[n] == PoemCountsOf(LastOf(ds, n).value)
    decreases |ds|
  {
    if |ds| > 0 {
      var init := ds[..|ds| - 1];
      var p := ds[|ds| - 1];
      assert ds == init + [p];
      AccumulatePoems(init);
      TitleSetAppend(init, p);
      StepEffect(Accumulate(init), p);
    }
  }

  /** `LastOf` is the record after which no record has the same title. */
  lemma {:induction false} LastOfIsLast(ds: seq<Poem>, i: nat)
    requires i < |ds|
    requires forall j :: i < j < |ds| ==> ds[j].title != ds[i].title
    ensures LastOf(ds, ds[i].title) == Some(ds[i])
    decreases |ds|
  {
    if i < |ds| - 1 {
      var init := ds[..|ds| - 1];
      assert init[i] == ds[i];
      LastOfIsLast(init, i);
    }
  }

  // The finished statistics.

  /** `statistics["lines"]` and `statistics["characters"]` count all lines and all characters
      of all records. */
  lemma TotalsCountEverything(ds: seq<Poem>)
    ensures StatisticsOf(ds).lines == SumOf(ds, Lines)
    ensures StatisticsOf(ds).characters == SumOf(ds, Characters)
  {
    AccumulateTotals(ds);
  }

  /** Every collection other than `"number"` has an entry exactly when some record carries
      it, holding the number of its records and their lines and characters. */
  lemma CollectionEntries(ds: seq<Poem>, collection: string)
    requires collection != NumberKey
    ensures collection in StatisticsOf(ds).collections <==> collection in CollectionSet(ds)
    ensures collection in StatisticsOf(ds).collections ==>
      StatisticsOf(ds).collections[collection] == Counts(CountsOf(ds, collection))
  {
    AccumulateCollections(ds);
  }

  /** Every title other than `"number"` has an entry exactly when some record carries it; a
      record no later record shares its title with determines that entry. */
  lemma PoemEntries(ds: seq<Poem>, title: string)
    requires title != NumberKey
    ensures title in StatisticsOf(ds).poems <==> title in TitleSet(ds)
    ensures forall i :: 0 <= i < |ds| && ds[i].title == title && (forall j :: i < j < |ds| ==> ds[j].title != title) ==>
      StatisticsOf(ds).poems[title] == Counts(PoemCountsOf(ds[i]))
  {
    AccumulatePoems(ds);
    forall i | 0 <= i < |ds| && ds[i].title == title && (forall j :: i < j < |ds| ==> ds[j].title != title)
      ensures StatisticsOf(ds).poems[title] == Counts(PoemCountsOf(ds[i]))
    {
      assert ds[i] in ds;
      LastOfIsLast(ds, i);
    }
  }

  /** The `"number"` entries hold the number of distinct collections and of distinct titles,
      counted before the entry is added, so a `"number"` collection or title is both counted
      and overwritten. */
  lemma NumberEntries(ds: seq<Poem>)
    ensures StatisticsOf(ds).collections[NumberKey] == Number(|CollectionSet(ds)|)
    ensures StatisticsOf(ds).poems[NumberKey] == Number(|TitleSet(ds)|)
  {
    AccumulateCollections(ds);
    AccumulatePoems(ds);
  }

  /** Adding one record to a list of distinct collections adds its measure once if its
      collection is listed. */
  lemma {:induction false} SumOverAppend(ds: seq<Poem>, p: Poem, cs: seq<string>, k: Measure)
    requires Distinct(cs)
    ensures SumOver(ds + [p], cs, k) == SumOver(ds, cs, k) + (if p.collection in cs then MeasureOf(p, k) else 0)
    decreases |cs|
  {
    if |cs| > 0 {
      var init := cs[..|cs| - 1];
      var c := cs[|cs| - 1];
      assert cs == init + [c];
      assert forall i :: 0 <= i < |init| ==> init[i] == cs[i];
      assert p.collection in cs <==> p.collection in init || p.collection == c;
      assert !(p.collection in init && p.collection == c);
      SumOverAppend(ds, p, init, k);
      OfAppend(ds, p, c);
      if p.collection == c {
        SumOfAppend(Of(ds, c), p, k);
      } else {
        assert Of(ds + [p], c) == Of(ds, c);
      }
    }
  }

  /** The per-collection counts add up to the totals: summed over the collections, the poems
      give the number of records, the lines and characters the total lines and characters. */
  lemma {:induction false} CollectionsSumToTotals(ds: seq<Poem>, k: Measure)
    ensures SumOver(ds, Order(ds), k) == SumOf(ds, k)
    decreases |ds|
  {
    if |ds| > 0 {
      var init := ds[..|ds| - 1];
      var p := ds[|ds| - 1];
      assert ds == init + [p];
      var o := Order(init);
      CollectionsSumToTotals(init, k);
      SumOverAppend(init, p, o, k);
      SumOfAppend(init, p, k);
      if p.collection in o {
        assert Order(ds) == o;
      } else {
        var c := p.collection;
        assert Order(ds) == o + [c];
        assert (o + [c])[..|o|] == o;
        assert SumOver(ds, o + [c], k) == SumOver(ds, o, k) + SumOf(Of(ds, c), k);
        CollectionSetAppend(init, p);
        OfAppend(init, p, c);
        OfAbsent(init, c);
        assert Of(ds, c) == [p];
        assert SumOf([p], k) == MeasureOf(p, k) + SumOf([], k);
      }
    }
  }

  /** `compute_statistics` depends only on the dataset: calling it again changes nothing. */
  lemma ComputeIdempotent(a: Analyzer)
    ensures ComputeStatistics(ComputeStatistics(a)) == ComputeStatistics(a)
    ensures ComputeStatistics(a).statistics == Some(StatisticsOf(a.dataset))
  {
  }

  /** An example of `PoemEntries`: of two records with the same title, only the second
      one's counts survive. */
  lemma DuplicateTitleKeepsLast()
    ensures
      var ds := [Poem("Spleen", "Les Fleurs du mal", ["a", "b"]), Poem("Spleen", "Le Spleen de Paris", ["cde"])];
      StatisticsOf(ds).poems["Spleen"] == Counts(PoemCounts(1, 3))
  {
    var ds := [Poem("Spleen", "Les Fleurs du mal", ["a", "b"]), Poem("Spleen", "Le Spleen de Paris", ["cde"])];
    PoemEntries(ds, "Spleen");
    assert TotalLength(["cde"]) == 3;
  }

  /** An example of `NumberEntries`: a collection called `"number"` is counted and then
      overwritten by the count. */
  lemma NumberCollectionOverwritten()
    ensures
      var ds := [Poem("Titre", "number", ["vers"])];
      StatisticsOf(ds).collections[NumberKey] == Number(1)
  {
    var ds := [Poem("Titre", "number", ["vers"])];
    NumberEntries(ds);
    CollectionSetAppend([], ds[0]);
    assert [] + [ds[0]] == ds;
  }
}
