/** The `Baudelaire` object: corpus, vocabulary and training windows built once at
    construction, and `generate_lines`, which renders a seed window, a line break, and then
    the chunks greedy decoding produces one after another. */
module Generator {
  import opened Results
  import opened Poems
  import opened CorpusLoading
  import opened Vocabulary
  import opened Preprocessing
  import opened Decoding

  /** The exceptions the modelled code can raise. */
  datatype Error =
    | EmptyLabels          // `to_categorical` of no labels: `np.max` of an empty array raises ValueError
    | SeedIndexOutOfRange  // `self.sequences[...]` raises IndexError
    | UnknownIndex         // `number_to_character[...]` raises KeyError
    | EmptyScores          // `np.argmax` of an empty score vector raises ValueError

  /** The attributes `__init__` leaves on the object, the network aside; `width` is the
      number of output classes of its Dense layer. */
  datatype Baudelaire = Baudelaire(
    sequenceLength: nat,
    corpus: string,
    mapping: Mapping,
    sequences: seq<seq<nat>>,
    labels: seq<nat>,
    width: nat)

  /** What construction establishes about the attributes. */
  ghost predicate Valid(b: Baudelaire)
  {
    && StrictlyIncreasing(b.mapping.characters)
    && (forall c :: c in b.mapping.characters <==> c in b.corpus)
    && Indexes(b.mapping)
    && |b.corpus| > b.sequenceLength
    && |b.mapping.characters| > 0
    && |b.sequences| == |b.labels| == |b.corpus| - b.sequenceLength
    && WindowsOf(b.corpus, b.mapping.characterToNumber, b.sequenceLength, b.sequences)
    && LabelsOf(b.corpus, b.mapping.characterToNumber, b.sequenceLength, b.labels)
    && DenseWidth(b.labels) == Some(b.width)
  }

  /** The steps of `__init__` after the corpus is loaded, up to `_build_model`: build the
      mapping, cut the windows and size the output layer. It fails exactly when the corpus is
      no longer than the window, because then there are no labels to one-hot encode. */
  method Prepare(corpus: string, sequenceLength: nat) returns (r: Result<Baudelaire, Error>)
    ensures r.Failure? <==> |corpus| <= sequenceLength
    ensures r.Failure? ==> r.error == EmptyLabels
    ensures r.Success? ==>
      && Valid(r.value)
      && r.value.corpus == corpus
      && r.value.mapping == CreateMapping(corpus)
      && r.value.sequenceLength == sequenceLength
  {
    var mapping := CreateMapping(corpus);
    var sequences, labels := Preprocess(corpus, mapping.characterToNumber, sequenceLength);
    var width := DenseWidth(labels);
    if width.None? {
      r := Failure(EmptyLabels);
    } else {
      assert corpus[0] in mapping.characters;
      r := Success(Baudelaire(sequenceLength, corpus, mapping, sequences, labels, width.value));
    }
  }

  /** `__init__` up to `_build_model`: load the corpus from the poems, then `Prepare` it. */
  method Build(poems: seq<Poem>, sequenceLength: nat) returns (r: Result<Baudelaire, Error>)
    ensures r.Failure? <==> |Corpus(poems)| <= sequenceLength
    ensures r.Failure? ==> r.error == EmptyLabels
    ensures r.Success? ==>
      && Valid(r.value)
      && r.value.corpus == Corpus(poems)
      && r.value.mapping == CreateMapping(Corpus(poems))
      && r.value.sequenceLength == sequenceLength
  {
    r := Prepare(Corpus(poems), sequenceLength);
  }

  /** Window `i` indexes the vocabulary and renders back to `corpus[i:i + L]`; label `i`
      indexes the vocabulary and names `corpus[i + L]`. */
  lemma WindowsMatchCorpus(b: Baudelaire, i: nat)
    requires Indexes(b.mapping)
    requires WindowsOf(b.corpus, b.mapping.characterToNumber, b.sequenceLength, b.sequences)
    requires LabelsOf(b.corpus, b.mapping.characterToNumber, b.sequenceLength, b.labels)
    requires i < |b.sequences| && i < |b.labels|
    ensures b.labels[i] < |b.mapping.characters|
    ensures b.mapping.numberToCharacter[b.labels[i]] == b.corpus[i + b.sequenceLength]
    ensures forall k :: 0 <= k < b.sequenceLength ==> b.sequences[i][k] < |b.mapping.characters|
    ensures SequenceToString(b.mapping, b.sequences[i]) == Some(b.corpus[i..i + b.sequenceLength])
  {
    // Naming the label gives Valid's quantifier over labels the term it triggers on.
    var nextNumber := b.labels[i];
    WindowAt(b.corpus, b.mapping.characterToNumber, b.sequenceLength, b.sequences, i);
    var text := b.corpus[i..i + b.sequenceLength];
    forall k | 0 <= k < |text|
      ensures text[k] in b.mapping.characterToNumber && b.sequences[i][k] == b.mapping.characterToNumber[text[k]]
    {
      // Naming the number gives WindowAt's quantifier the term it triggers on.
      var n := b.sequences[i][k];
    }
    RenderEncoded(b.mapping, text, b.sequences[i]);
    NumberOfCharacter(b.mapping, b.corpus[i + b.sequenceLength]);
  }

  /** The Dense layer has at least one class and no more classes than the vocabulary. */
  lemma WidthWithinVocabulary(b: Baudelaire)
    requires Valid(b)
    ensures 0 < b.width <= |b.mapping.characters|
  {
    assert b.labels[0] in b.labels;
    DenseWidthWithinVocabulary(b.labels, |b.mapping.characters|);
  }

  /** The mapping of a valid object is the one `_create_character_number_mapping` builds from
      its corpus. */
  lemma ValidMapping(b: Baudelaire)
    requires Valid(b)
    ensures b.mapping == CreateMapping(b.corpus)
  {
    var m := CreateMapping(b.corpus);
    SortedUnique(b.mapping.characters, m.characters);
    IndexesDetermine(b.mapping, m);
  }

  /** The loop of `generate_lines`: `count` chunks, each generated from the one before and
      rendered, concatenated without separators. Every chunk is as long as the seed. */
  function Chunks(b: Baudelaire, predict: Predictor, seed: seq<nat>, count: nat): (r: Result<string, Error>)
    requires |b.mapping.characters| > 0
    ensures r.Success? ==> |r.value| == count * |seed|
    ensures r.Failure? ==> r.error == EmptyScores || r.error == UnknownIndex
    decreases count
  {
    if count == 0 then Success([])
    else match Run(predict, |b.mapping.characters|, seed, b.sequenceLength)
      case None => Failure(EmptyScores)
      case Some(next) =>
        match SequenceToString(b.mapping, next)
        case None => Failure(UnknownIndex)
        case Some(text) =>
          match Chunks(b, predict, next, count - 1)
          case Failure(e) => Failure(e)
          case Success(rest) =>
            assert count * |seed| == |seed| + (count - 1) * |seed|;
            Success(text + rest)
  }

  /** `generate_lines` with the drawn seed index as a parameter: the rendered seed window, a
      line break, then the generated chunks. An index past the last window raises. */
  function GenerateLines(b: Baudelaire, predict: Predictor, linesNumber: nat, seedIndex: nat): (r: Result<string, Error>)
    requires |b.mapping.characters| > 0
    ensures seedIndex >= |b.sequences| <==> r == Failure(SeedIndexOutOfRange)
    ensures r.Success? ==>
      |r.value| == |b.sequences[seedIndex]| + 1 + linesNumber * |b.sequences[seedIndex]|
  {
    if seedIndex >= |b.sequences| then Failure(SeedIndexOutOfRange)
    else
      var seed := b.sequences[seedIndex];
      match SequenceToString(b.mapping, seed)
      case None => Failure(UnknownIndex)
      case Some(head) =>
        match Chunks(b, predict, seed, linesNumber)
        case Failure(e) => Failure(e)
        case Success(tail) => Success(head + "\n" + tail)
  }

  /** Indices in `[0, V)` always render, and only to corpus characters. */
  lemma RenderInCorpus(b: Baudelaire, sequence: seq<nat>)
    requires Valid(b)
    requires forall k :: 0 <= k < |sequence| ==> sequence[k] < |b.mapping.characters|
    ensures SequenceToString(b.mapping, sequence).Some?
    ensures forall k :: 0 <= k < |sequence| ==> SequenceToString(b.mapping, sequence).value[k] in b.corpus
  {
    MappingsInverse(b.mapping);
    var text := SequenceToString(b.mapping, sequence).value;
    forall k | 0 <= k < |sequence|
      ensures text[k] in b.corpus
    {
      assert text[k] == b.mapping.numberToCharacter[sequence[k]];
      assert text[k] in b.mapping.characterToNumber;
    }
  }

  /** With a predictor shaped like the Dense layer, every chunk is produced and rendered. */
  lemma ChunksSucceed(b: Baudelaire, predict: Predictor, seed: seq<nat>, count: nat)
    requires Valid(b)
    requires Shaped(predict, b.width)
    requires forall k :: 0 <= k < |seed| ==> seed[k] < |b.mapping.characters|
    ensures Chunks(b, predict, seed, count).Success?
    decreases count
  {
    if count > 0 {
      var v := |b.mapping.characters|;
      WidthWithinVocabulary(b);
      RunTotal(predict, v, b.width, v, seed, b.sequenceLength);
      var next := Run(predict, v, seed, b.sequenceLength).value;
      RenderInCorpus(b, next);
      ChunksSucceed(b, predict, next, count - 1);
    }
  }

  /** Every character of the generated chunks comes from the corpus. */
  lemma ChunksFromCorpus(b: Baudelaire, predict: Predictor, seed: seq<nat>, count: nat)
    requires Valid(b)
    requires Shaped(predict, b.width)
    requires forall k :: 0 <= k < |seed| ==> seed[k] < |b.mapping.characters|
    ensures Chunks(b, predict, seed, count).Success?
    ensures forall k :: 0 <= k < |Chunks(b, predict, seed, count).value| ==>
      Chunks(b, predict, seed, count).value[k] in b.corpus
    decreases count
  {
    ChunksSucceed(b, predict, seed, count);
    if count > 0 {
      var v := |b.mapping.characters|;
      WidthWithinVocabulary(b);
      RunTotal(predict, v, b.width, v, seed, b.sequenceLength);
      var next := Run(predict, v, seed, b.sequenceLength).value;
      RenderInCorpus(b, next);
      var text := SequenceToString(b.mapping, next).value;
      ChunksFromCorpus(b, predict, next, count - 1);
      var rest := Chunks(b, predict, next, count - 1).value;
      assert Chunks(b, predict, seed, count).value == text + rest;
    }
  }

  /** The seed indices `random.randint(0, len(self.sequences))` can draw: both bounds included. */
  predicate SeedDrawAsWritten(windowCount: nat, seedIndex: nat)
  {
    seedIndex <= windowCount
  }

  /** The seed indices of a uniform choice among the windows, `randint(0, len - 1)`. */
  predicate SeedDraw(windowCount: nat, seedIndex: nat)
  {
    seedIndex < windowCount
  }

  /** The draw as written can return the number of windows itself, and that index raises
      before anything is generated. */
  lemma AsWrittenDrawCanFail(b: Baudelaire, predict: Predictor, linesNumber: nat)
    requires Valid(b)
    ensures SeedDrawAsWritten(|b.sequences|, |b.sequences|)
    ensures GenerateLines(b, predict, linesNumber, |b.sequences|) == Failure(SeedIndexOutOfRange)
  {
  }

  /** For every seed a uniform choice among the windows can draw, `generate_lines(n)` returns
      the seed's corpus text, a line break and `n` chunks of `L` characters, `L + 1 + n * L` in
      all. */
  lemma GenerateLinesSucceeds(b: Baudelaire, predict: Predictor, linesNumber: nat, seedIndex: nat)
    requires Valid(b)
    requires Shaped(predict, b.width)
    requires SeedDraw(|b.sequences|, seedIndex)
    ensures GenerateLines(b, predict, linesNumber, seedIndex).Success?
    ensures var out := GenerateLines(b, predict, linesNumber, seedIndex).value;
      && |out| == b.sequenceLength + 1 + linesNumber * b.sequenceLength
      && (forall k :: 0 <= k < b.sequenceLength ==> out[k] == b.corpus[seedIndex + k])
      && out[b.sequenceLength] == '\n'
  {
    var seed := b.sequences[seedIndex];
    WindowsMatchCorpus(b, seedIndex);
    ChunksSucceed(b, predict, seed, linesNumber);
    var head := SequenceToString(b.mapping, seed).value;
    var tail := Chunks(b, predict, seed, linesNumber).value;
    assert GenerateLines(b, predict, linesNumber, seedIndex) == Success(head + "\n" + tail);
    assert forall k :: 0 <= k < |head| ==> (head + "\n" + tail)[k] == head[k];
  }

  /** Every character `generate_lines` returns is a line break or a corpus character. */
  lemma GenerateLinesFromCorpus(b: Baudelaire, predict: Predictor, linesNumber: nat, seedIndex: nat)
    requires Valid(b)
    requires Shaped(predict, b.width)
    requires SeedDraw(|b.sequences|, seedIndex)
    ensures GenerateLines(b, predict, linesNumber, seedIndex).Success?
    ensures var out := GenerateLines(b, predict, linesNumber, seedIndex).value;
      forall k :: 0 <= k < |out| ==> out[k] == '\n' || out[k] in b.corpus
  {
    var seed := b.sequences[seedIndex];
    var L := b.sequenceLength;
    WindowsMatchCorpus(b, seedIndex);
    ChunksFromCorpus(b, predict, seed, linesNumber);
    var head := SequenceToString(b.mapping, seed).value;
    var tail := Chunks(b, predict, seed, linesNumber).value;
    assert GenerateLines(b, predict, linesNumber, seedIndex) == Success(head + "\n" + tail);
    SlicePrefix(b.corpus, seedIndex, L, head);
    JoinedFromCorpus(head, tail, b.corpus);
  }

  /** A seed window's text is made of corpus characters. */
  lemma SlicePrefix(corpus: string, start: nat, length: nat, head: string)
    requires start + length <= |corpus|
    requires head == corpus[start..start + length]
    ensures forall k :: 0 <= k < |head| ==> head[k] in corpus
  {
    forall k | 0 <= k < |head|
      ensures head[k] in corpus
    {
      assert head[k] == corpus[start + k];
    }
  }

  /** Two stretches of corpus characters around a line break. */
  lemma JoinedFromCorpus(head: string, tail: string, corpus: string)
    requires forall k :: 0 <= k < |head| ==> head[k] in corpus
    requires forall k :: 0 <= k < |tail| ==> tail[k] in corpus
    ensures var out := head + "\n" + tail;
      && out[..|head|] == head
      && out[|head|] == '\n'
      && forall k :: 0 <= k < |out| ==> out[k] == '\n' || out[k] in corpus
  {
    var out := head + "\n" + tail;
    forall k | 0 <= k < |out|
      ensures out[k] == '\n' || out[k] in corpus
    {
      if k < |head| {
        assert out[k] == head[k];
      } else if k > |head| {
        assert out[k] == tail[k - |head| - 1];
      }
    }
  }

  /** Whenever `generate_lines` succeeds with at least one chunk, the first chunk is exactly
      the `L` predicted characters: the seed is fully replaced before it is rendered, so
      nothing of the seed text is repeated. */
  lemma FirstChunkIsPredictions(b: Baudelaire, predict: Predictor, linesNumber: nat, seedIndex: nat)
    requires |b.mapping.characters| > 0
    requires seedIndex < |b.sequences| && |b.sequences[seedIndex]| == b.sequenceLength
    requires linesNumber > 0
    requires GenerateLines(b, predict, linesNumber, seedIndex).Success?
    ensures
      var out := GenerateLines(b, predict, linesNumber, seedIndex).value;
      var predicted := Predictions(predict, |b.mapping.characters|, b.sequences[seedIndex], b.sequenceLength);
      && predicted.Some?
      && SequenceToString(b.mapping, predicted.value).Some?
      && out[b.sequenceLength + 1..2 * b.sequenceLength + 1] == SequenceToString(b.mapping, predicted.value).value
  {
    var v := |b.mapping.characters|;
    var seed := b.sequences[seedIndex];
    var L := b.sequenceLength;
    ChunksStartWithRun(b, predict, seed, linesNumber);
    SeedFullyReplaced(predict, v, seed);
    var head := SequenceToString(b.mapping, seed).value;
    var tail := Chunks(b, predict, seed, linesNumber).value;
    assert GenerateLines(b, predict, linesNumber, seedIndex) == Success(head + "\n" + tail);
    AfterBreak(head, tail, L);
  }

  /** The chunks are the rendering of one uninterrupted greedy stream: `count` chunks of a
      seed of length `L` are the `count * L` indices greedy decoding predicts from the seed. */
  lemma {:induction false} ChunksArePredictions(b: Baudelaire, predict: Predictor, seed: seq<nat>, count: nat)
    requires |b.mapping.characters| > 0
    requires |seed| == b.sequenceLength
    requires Chunks(b, predict, seed, count).Success?
    ensures Predictions(predict, |b.mapping.characters|, seed, count * b.sequenceLength).Some?
    ensures SequenceToString(b.mapping, Predictions(predict, |b.mapping.characters|, seed, count * b.sequenceLength).value)
      == Some(Chunks(b, predict, seed, count).value)
    decreases count
  {
    var v := |b.mapping.characters|;
    var L := b.sequenceLength;
    if count == 0 {
      assert Predictions(predict, v, seed, 0) == Some([]);
    } else {
      var next := Run(predict, v, seed, L).value;
      var text := SequenceToString(b.mapping, next).value;
      var rest := Chunks(b, predict, next, count - 1).value;
      assert Chunks(b, predict, seed, count).value == text + rest;
      ChunksArePredictions(b, predict, next, count - 1);
      SeedFullyReplaced(predict, v, seed);
      assert count * L == L + (count - 1) * L;
      PredictionsSplit(predict, v, seed, L, (count - 1) * L);
      var later := Predictions(predict, v, next, (count - 1) * L).value;
      assert Predictions(predict, v, seed, count * L).value == next + later;
      LookUpAllAppend(b.mapping.numberToCharacter, next, later);
    }
  }

  /** Everything `generate_lines` returns after the line break is the rendering of the
      `n * L` indices greedy decoding predicts from the seed window. */
  lemma OutputAfterBreakIsPredictions(b: Baudelaire, predict: Predictor, linesNumber: nat, seedIndex: nat)
    requires |b.mapping.characters| > 0
    requires seedIndex < |b.sequences| && |b.sequences[seedIndex]| == b.sequenceLength
    requires GenerateLines(b, predict, linesNumber, seedIndex).Success?
    ensures
      var out := GenerateLines(b, predict, linesNumber, seedIndex).value;
      var predicted := Predictions(predict, |b.mapping.characters|, b.sequences[seedIndex], linesNumber * b.sequenceLength);
      && predicted.Some?
      && SequenceToString(b.mapping, predicted.value) == Some(out[b.sequenceLength + 1..])
  {
    var seed := b.sequences[seedIndex];
    var head := SequenceToString(b.mapping, seed).value;
    var tail := Chunks(b, predict, seed, linesNumber).value;
    assert GenerateLines(b, predict, linesNumber, seedIndex) == Success(head + "\n" + tail);
    ChunksArePredictions(b, predict, seed, linesNumber);
    assert (head + "\n" + tail)[|head| + 1..] == tail;
  }

  /** The first chunk is the rendering of one run of `L` steps from the seed. */
  lemma ChunksStartWithRun(b: Baudelaire, predict: Predictor, seed: seq<nat>, count: nat)
    requires |b.mapping.characters| > 0
    requires count > 0 && |seed| == b.sequenceLength
    requires Chunks(b, predict, seed, count).Success?
    ensures Run(predict, |b.mapping.characters|, seed, b.sequenceLength).Some?
    ensures SequenceToString(b.mapping, Run(predict, |b.mapping.characters|, seed, b.sequenceLength).value).Some?
    ensures Chunks(b, predict, seed, count).value[..|seed|] ==
      SequenceToString(b.mapping, Run(predict, |b.mapping.characters|, seed, b.sequenceLength).value).value
  {
  }

  /** The `n` characters after the line break are the first `n` of the tail. */
  lemma AfterBreak(head: string, tail: string, n: nat)
    requires n <= |tail|
    ensures (head + "\n" + tail)[|head| + 1..|head| + 1 + n] == tail[..n]
  {
  }
}
