# Baudelaire character model in Dafny

This project models the discrete parts of a character-level poem generator trained on
Baudelaire's poems. It also models the dataset statistics computed over the scraped poems.

The generator's pipeline has these steps:

1. **Corpus.** The scraped poem records are turned into one corpus string. Every poem's
   lines are joined with line breaks, the poems are joined with line breaks, and the result
   is stripped and lower-cased.
2. **Vocabulary.** The sorted distinct characters of the corpus, with dictionaries from index
   to character and back.
3. **Windows.** Every offset of the corpus gives a window of `L` character indices, labelled
   with the index of the next character.
4. **Rendering.** `_sequence_to_string` turns index sequences back into text.
5. **Greedy decoding.** `generate` runs `L` rounds. Each round predicts the argmax of the
   network's scores for the normalised buffer, appends it, and drops the oldest index.
6. **Line generation.** `generate_lines` renders a seed window, adds a line break, and
   appends `n` decoded chunks.

The trained network is a parameter: any function from a normalised window to a score
vector. The random seed draw is also a parameter: the seed index.

The repository holds two copies of the generator, `baudelaire/baudelaire.py` and the older
`baudelaire.py`. They are identical in every function modelled here. The older copy's
constructor takes the dataset path, and its `train` and `load_weights` differ, but this
model covers neither. Lines in the older copy sit 3 lines earlier up to
`_sequence_to_string`, and 4 lines earlier from `generate` on:

| baudelaire/baudelaire.py | baudelaire.py | code |
|---|---|---|
| 32-34 | 29-31 | corpus expression of `_load_dataset` |
| 36-39 | 33-36 | `_create_character_number_mapping` |
| 41-60 | 38-57 | `_preprocess` |
| 78 | 75 | width of the Dense layer |
| 82-83 | 79-80 | `_sequence_to_string` |
| 97-109 | 93-105 | `generate` |
| 111-119 | 107-115 | `generate_lines` |

`scraping/analyzer.py`'s `compute_statistics` is modelled as three nested recursive loops:
over records, over lines, and over characters. The loop result is compared with reference
definitions stated directly over the records.

Modules:

- `Results`: `Option` and `Result`.
- `Poems`: the scraped record.
- `Text`: join, split, `str.strip` and `str.lower`.
- `CorpusLoading`: the corpus.
- `Vocabulary`: the mapping and the two look-ups.
- `Preprocessing`: the windows, labels, normalisation and one-hot width.
- `Decoding`: argmax and the `generate` loop.
- `Generator`: the `Baudelaire` object and `generate_lines`.
- `Analysis`: the statistics.

Facts of the code that shape the model:

- With a corpus no longer than `L`, `_preprocess` raises nothing; its loop is simply empty.
  Construction then fails in `to_categorical` (line 60), because `np.max` of an empty label
  array raises. `Generator.Prepare` and `Generator.Build` fail with `EmptyLabels` exactly
  when `len(corpus) <= L`.
- The Dense layer has `labels.shape[1]` classes (line 78). That is the largest label plus
  one, which is at most the vocabulary size and can be smaller
  (`Preprocessing.DenseWidth`, `Generator.WidthWithinVocabulary`).
- The seed is drawn with `randint(0, len(sequences))`, which includes `len(sequences)`; see
  Findings.

## Model

| member | source | states |
|---|---|---|
| Text.Join | baudelaire/baudelaire.py:33 | `"\n".join`: an empty list joins to the empty string; otherwise the length is the sum of the parts plus one separator between neighbours |
| Text.JoinAppend | baudelaire/baudelaire.py:33 | joining two non-empty lists one after the other equals joining each and putting one separator between them, so the two-level join of the poems is the join of all their lines |
| Text.FirstIndex | baudelaire/baudelaire.py:39 | the position found holds the character and no earlier position does; it gives `enumerate`'s number of a vocabulary character and the cut point of a split |
| Text.Split | baudelaire/baudelaire.py:33 | splitting at a separator gives at least one part, and no part contains the separator |
| Text.SplitJoin | baudelaire/baudelaire.py:33 | joining lines that contain no line break and splitting at line breaks gives the lines back |
| Text.Strip | baudelaire/baudelaire.py:33 | `str.strip()`: the result is a slice of the input; everything before and after it is Python whitespace, and it neither starts nor ends with whitespace |
| Text.StrippedUnique | baudelaire/baudelaire.py:33 | only one string is a stripped form of a given string, so that description fixes `Strip` |
| Text.LowerChar | baudelaire/baudelaire.py:33 | lower-casing one character keeps it whitespace exactly when it was whitespace |
| Text.Lower | baudelaire/baudelaire.py:33 | `str.lower()` keeps the length, leaves no modelled capital, keeps every position's whitespace status, and leaves every character that is already lower case unchanged |
| Text.LowerKeepsStripped | baudelaire/baudelaire.py:33 | lower-casing a string and its stripped slice keeps the slice stripped, at the same offset |
| Text.StripLowerCommute | baudelaire/baudelaire.py:33 | lower-casing and stripping commute, so `strip().lower()` equals `lower().strip()` |
| CorpusLoading.Corpus | baudelaire/baudelaire.py:32-34 | the corpus is lower-case, has no whitespace at either end, and is the lower-cased joined text with only whitespace removed around it |
| CorpusLoading.AllLines | baudelaire.py:30 | every line of every poem occurs in the flattened list of lines |
| CorpusLoading.RawCorpusIsAllLines | baudelaire/baudelaire.py:33 | when every poem has a line, the two-level join equals one join of all lines of all poems |
| CorpusLoading.RawCorpusSplitsIntoLines | baudelaire.py:30 | when lines hold no line break, splitting the joined text at line breaks gives back every scraped line in order |
| Vocabulary.Insert | baudelaire/baudelaire.py:37 | inserting into a strictly increasing sequence keeps it strictly increasing and adds exactly the new character |
| Vocabulary.Characters | baudelaire/baudelaire.py:37 | `sorted(list(set(corpus)))`: strictly increasing (so duplicate-free), and holding exactly the characters that occur in the corpus |
| Vocabulary.SortedUnique | baudelaire.py:34 | two strictly increasing sequences with the same elements are equal, so the vocabulary is the only sorted list of the corpus characters |
| Vocabulary.CreateMapping | baudelaire/baudelaire.py:36-39 | the vocabulary is sorted and covers the corpus; `number_to_character` is keyed by `0 .. V-1`, `character_to_number` by the vocabulary, and both agree with the vocabulary at every position |
| Vocabulary.IndexesDetermine | baudelaire/baudelaire.py:38-39 | given the vocabulary, only one pair of dictionaries satisfies those key and position facts |
| Vocabulary.MappingsInverse | baudelaire/baudelaire.py:38-39 | the two dictionaries are mutual inverses: every character maps to an index below V that maps back to it, and the other way round |
| Vocabulary.LookUpAll | baudelaire/baudelaire.py:83 | a list comprehension over a dictionary succeeds exactly when every key is present, and then yields the value of each element in order |
| Vocabulary.LookUpAllAppend | baudelaire/baudelaire.py:83 | looking up a concatenation succeeds exactly when looking up each part does, and gives the two results one after the other |
| Vocabulary.Encode | baudelaire/baudelaire.py:47-48 | encoding text succeeds exactly when every character is a vocabulary key, and keeps the length |
| Vocabulary.SequenceToString | baudelaire/baudelaire.py:82-83 | `_sequence_to_string` succeeds exactly when every index is a key of `number_to_character` (otherwise `KeyError`), and keeps the length |
| Vocabulary.NumberOfCharacter | baudelaire/baudelaire.py:38-39 | the number of a vocabulary character is below V and `number_to_character` maps it back to that character |
| Vocabulary.RenderEncoded | baudelaire/baudelaire.py:82-83 | an index sequence that encodes a text position by position renders back to exactly that text, through indices below V |
| Vocabulary.EncodeThenRender | baudelaire/baudelaire.py:82-83 | for dictionaries built by `enumerate` over the vocabulary (as `CreateMapping` builds them), encoding vocabulary text gives indices below V, and rendering them gives the text back |
| Vocabulary.RenderThenEncode | baudelaire.py:79-80 | for dictionaries built by `enumerate` over the vocabulary, rendering succeeds exactly when every index is below V, and encoding the rendered text gives the indices back |
| Preprocessing.Preprocess | baudelaire/baudelaire.py:41-55 | the loop yields exactly `len(corpus) - L` windows and labels when that is positive and none otherwise; window `i` has length `L` and encodes `corpus[i:i+L]`, label `i` encodes `corpus[i+L]` |
| Preprocessing.Normalize | baudelaire/baudelaire.py:56-58 | dividing by `V` keeps the length, is undone by multiplying by `V`, and maps every index below `V` into `[0, 1)` |
| Preprocessing.Max | baudelaire/baudelaire.py:60 | the largest label bounds every label and is one of them |
| Preprocessing.DenseWidth | baudelaire/baudelaire.py:60 | `to_categorical` raises exactly on no labels; otherwise its width is positive, exceeds every label, and is one more than some label |
| Preprocessing.DenseWidthWithinVocabulary | baudelaire/baudelaire.py:78 | labels below V give a Dense layer of at most V classes |
| Decoding.Argmax | baudelaire/baudelaire.py:99-104 | `np.argmax`: an index of a maximal score with every earlier score strictly smaller, i.e. the first maximum |
| Decoding.ArgmaxUnique | baudelaire/baudelaire.py:99-104 | only one index is the first maximum, so that description fixes `Argmax` |
| Decoding.PredictNext | baudelaire/baudelaire.py:99-104 | one prediction fails exactly when the score vector for the normalised buffer is empty, and otherwise is its first maximum |
| Decoding.Run | baudelaire/baudelaire.py:97-109 | the append-then-drop loop keeps the buffer length |
| Decoding.Predictions | baudelaire/baudelaire.py:97-109 | `L` rounds predict exactly `L` indices |
| Decoding.RunIsStreamSuffix | baudelaire/baudelaire.py:97-109 | `generate` finishes exactly when all predictions do; the predictions are a greedy decoding of the seed, and the result is the last `\|seed\|` indices of seed followed by predictions |
| Decoding.DecodingDeterminesRun | baudelaire.py:93-105 | conversely, any greedy decoding of the seed is what `generate` predicts, and the result is the matching suffix |
| Decoding.SeedFullyReplaced | baudelaire/baudelaire.py:98-107 | with as many rounds as the seed is long, the result is exactly the predictions, with nothing of the seed left |
| Decoding.PredictionsSplit | baudelaire/baudelaire.py:97-109 | `a + b` rounds of greedy decoding are `a` rounds followed by `b` rounds from the buffer the first `a` leave: each call of `generate` continues the stream where the previous one stopped |
| Decoding.RunTotal | baudelaire/baudelaire.py:97-109 | a predictor with a non-empty output layer never makes `generate` raise, every prediction indexes that layer, and the buffer stays within any bound at least the layer width |
| Decoding.ConstantPredictor | baudelaire/baudelaire.py:97-109 | a predictor that always returns the same scores yields `L` copies of their argmax |
| Generator.Prepare | baudelaire/baudelaire.py:36-60 | given the loaded corpus, construction fails, with the empty-label error, exactly when the corpus is no longer than `L`; otherwise the object is valid (windows, labels and width as above) and holds the corpus and the mapping built from it |
| Generator.Build | baudelaire/baudelaire.py:22-60 | construction fails, with the empty-label error, exactly when the corpus is no longer than `L`; otherwise the object is valid (windows, labels and width as above) and holds the corpus of the records and the mapping built from it |
| Preprocessing.WindowAt | baudelaire/baudelaire.py:44-50 | window `i` has the length of the corpus stretch it starts, and each of its indices is the number of the character at the same position of that stretch |
| Generator.WindowsMatchCorpus | baudelaire/baudelaire.py:44-53 | every window of a constructed object has indices below V and renders back to its stretch of the corpus; its label is below V and names the next character |
| Generator.WidthWithinVocabulary | baudelaire/baudelaire.py:78 | the Dense layer of a constructed object has between 1 and V classes |
| Generator.ValidMapping | baudelaire.py:33-36 | the mapping of a constructed object is the one `_create_character_number_mapping` builds from its corpus |
| Generator.Chunks | baudelaire/baudelaire.py:115-117 | `n` successful chunks make `n` times the seed length characters; a failure is an empty score vector or an unknown index |
| Generator.GenerateLines | baudelaire/baudelaire.py:111-119 | `generate_lines` raises the index error exactly when the seed index is past the last window; on success it has `L + 1 + n*L` characters |
| Generator.RenderInCorpus | baudelaire/baudelaire.py:82-83 | indices below V always render, and only to corpus characters |
| Generator.ChunksSucceed | baudelaire/baudelaire.py:115-117 | with a predictor shaped like the Dense layer, every chunk is generated and rendered |
| Generator.ChunksFromCorpus | baudelaire/baudelaire.py:115-117 | every character of the generated chunks is a corpus character |
| Generator.AsWrittenDrawCanFail | baudelaire/baudelaire.py:112 | `randint(0, len(sequences))` can draw `len(sequences)`, and `generate_lines` then raises before generating anything |
| Generator.GenerateLinesSucceeds | baudelaire/baudelaire.py:111-119 | for every seed among the windows, `generate_lines(n)` returns the seed's corpus text, a line break and `n` chunks, `L + 1 + n*L` characters in all |
| Generator.GenerateLinesFromCorpus | baudelaire/baudelaire.py:111-119 | every character `generate_lines` returns, for a seed among the windows, is the line break or a corpus character |
| Generator.ChunksStartWithRun | baudelaire/baudelaire.py:116-117 | the first chunk is the rendering of one `generate` call on the seed |
| Generator.ChunksArePredictions | baudelaire/baudelaire.py:115-117 | `n` chunks from a seed of length `L` are the rendering of the `n*L` indices one uninterrupted greedy decoding predicts from the seed |
| Generator.OutputAfterBreakIsPredictions | baudelaire/baudelaire.py:111-119 | whenever `generate_lines(n)` succeeds, everything after the line break is the rendering of the `n*L` indices greedy decoding predicts from the seed window |
| Generator.FirstChunkIsPredictions | baudelaire.py:107-115 | the characters right after the line break are exactly the `L` predicted characters, not a mixture with the seed |
| Analysis.Order | scraping/analyzer.py:29-36 | the collections in first-appearance order are distinct and are exactly the records' collections |
| Analysis.LastOf | scraping/analyzer.py:38-41 | the last record with a title exists exactly when some record has that title |
| Analysis.OpenPoem | scraping/analyzer.py:29-41 | opening a record creates or keeps its collection entry and creates its title entry |
| Analysis.Bump | scraping/analyzer.py:43-52 | adding counts leaves the sets of collections and titles unchanged |
| Analysis.CountCharactersAdds | scraping/analyzer.py:47-52 | the character loop adds the line's length to the total, the collection and the title, and nothing else |
| Analysis.CountLinesAdds | scraping/analyzer.py:43-52 | the line loop adds the number of lines to the total and the collection, and their characters to the total, the collection and the title |
| Analysis.StepEffect | scraping/analyzer.py:28-52 | one record adds its lines and characters to the totals, one poem with its lines and characters to its collection, and replaces its title's entry with its own counts; no other entry changes |
| Analysis.AccumulateTotals | scraping/analyzer.py:43-48 | after the loop, total lines and characters are the sums over all records |
| Analysis.AccumulateCollections | scraping/analyzer.py:29-36 | after the loop, the collections counted are those of the records, each with its number of records and their lines and characters |
| Analysis.StepCountsCollection | scraping/analyzer.py:29-51 | one iteration keeps each collection's entry equal to its reference counts |
| Analysis.AccumulatePoems | scraping/analyzer.py:38-52 | after the loop, the titles counted are those of the records, each holding the counts of the last record with that title |
| Analysis.LastOfIsLast | scraping/analyzer.py:38-41 | a record with no later record of the same title is the last one with that title |
| Analysis.Finish | scraping/analyzer.py:54-55 | each dictionary gains a `"number"` entry holding its key count from before the insertion, and every other entry is kept |
| Analysis.ComputeStatistics | scraping/analyzer.py:20-26 | `compute_statistics` keeps the dataset and always stores statistics |
| Analysis.TotalsCountEverything | scraping/analyzer.py:43-48 | `statistics["lines"]` and `statistics["characters"]` are the total lines and characters of all records |
| Analysis.CollectionEntries | scraping/analyzer.py:29-36 | a collection other than `"number"` has an entry exactly when some record carries it, and the entry counts its records, lines and characters |
| Analysis.PoemEntries | scraping/analyzer.py:38-41 | a title other than `"number"` has an entry exactly when some record carries it; the last such record alone determines it |
| Analysis.NumberEntries | scraping/analyzer.py:54-55 | the `"number"` entries are the numbers of distinct collections and distinct titles |
| Analysis.SumOverAppend | scraping/analyzer.py:44 | adding a record adds its measure once to a sum over distinct collections that lists its collection |
| Analysis.CollectionsSumToTotals | scraping/analyzer.py:29-51 | summed over the collections, the per-collection poems, lines and characters equal the number of records, total lines and total characters |
| Analysis.ComputeIdempotent | scraping/analyzer.py:20-26 | the statistics are rebuilt from scratch, so calling `compute_statistics` twice equals calling it once |

## Left out

- The Keras network is replaced by the predictor parameter. This covers `_build_model` (the
  LSTM and dropout layers, compilation), `train`, `load_weights` and `model.predict`
  itself. A prediction is taken on the window as a flat sequence of reals rather than a
  `(1, L, 1)` array.
- The one-hot label matrix of `to_categorical` is not built; only its width is modelled.
- Floating point is not modelled. Normalisation divides exact reals, and scores are reals
  without NaN or infinities.
- `random.randint` is not modelled. The seed index is a parameter, and the predicates
  `SeedDrawAsWritten` and `SeedDraw` describe the indices each draw can give.
- Decoding.Run: does not model that `starting_sequence.append` at line 106 mutates the
  caller's list, which is an entry of `self.sequences`. Later calls see that extended
  window, but the string `generate_lines` returns does not change.
- File and JSON input and output are not modelled: `_load_dataset`'s `open` and
  `json.load`, `write_to_file`, the analyzer's `_load_dataset` and `save_to_file`, and
  `main`. The records are typed values with `title`, `collection` and `text`, so a missing
  key cannot occur.
- The scrapers (`scraping/poems.py`, `scrapers/poems.py`) are not modelled: they are network
  fetches and HTML cleanup.
- The entry points and configuration are not modelled, having no algorithmic content:
  `baudelaire/__main__.py`, `main.py`, `baudelaire/log.py` and `setup.py`.
- `normalized_sequences` is not kept on the object: it only feeds the network's input shape
  and training. `Preprocessing.Normalize` models the division applied to one window.
- Text.LowerChar: lower-cases ASCII, the Latin-1 capitals, Œ and Ÿ, and keeps every other
  character. Python's full Unicode case mapping is not modelled; the French text of the
  corpus lies within this range.
- Records whose `text` is one string are not modelled: `text` is a list of lines, as
  `scraping/poems.py` (lines 33-51) yields it. `scrapers/poems.py` (lines 24-31) yields `text`
  as one string; on such a record `"\n".join` puts a line break between every pair of
  characters, and `compute_statistics` (`scraping/analyzer.py` lines 39-47) counts each
  character as a line. The window length and `lines_number` are `nat`: Python also accepts a
  negative `lines_number`, an empty `range`, and then returns the seed and the line break.
- The statistics dictionary is a record whose per-title and per-collection values are
  either counts or the integer stored under `"number"`. It is never serialised to JSON.

## Findings

| source | as written | input that shows it | evidently intended | confidence | as-written member | corrected member |
|---|---|---|---|---|---|---|
| baudelaire/baudelaire.py:112 (baudelaire.py:108 likewise) | `self.sequences[random.randint(0, len(self.sequences))]`; `randint` includes both bounds | any constructed object, when the draw returns `len(self.sequences)`: the index is past the last window and raises `IndexError` before any text is generated | draw among the windows only, `randint(0, len(self.sequences) - 1)`, so every seed exists | not executed | Generator.AsWrittenDrawCanFail | Generator.GenerateLinesSucceeds |
