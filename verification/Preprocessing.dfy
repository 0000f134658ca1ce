/** `_preprocess`: the dense, overlapping training windows over the corpus, their
    next-character labels, the normalised windows and the width of the one-hot labels. */
module Preprocessing {
  import opened Results

  /** The number of start offsets `range(len(corpus) - L)` visits: none when the corpus is
      not longer than the window. */
  function WindowCount(corpusLength: nat, sequenceLength: nat): nat
  {
    if corpusLength > sequenceLength then corpusLength - sequenceLength else 0
  }

  /** Window `i` encodes `corpus[i:i + L]`, for every window. */
  ghost predicate WindowsOf(corpus: string, characterToNumber: map<char, nat>, sequenceLength: nat, sequences: seq<seq<nat>>)
  {
    forall i :: 0 <= i < |sequences| ==>
      && |sequences[i]| == sequenceLength
      && forall k :: 0 <= k < sequenceLength ==>
           && i + k < |corpus|
           && corpus[i + k] in characterToNumber
           && sequences[i][k] == characterToNumber[corpus[i + k]]
  }

  /** Label `i` encodes `corpus[i + L]`, the character after window `i`. */
  ghost predicate LabelsOf(corpus: string, characterToNumber: map<char, nat>, sequenceLength: nat, labels: seq<nat>)
  {
    forall i :: 0 <= i < |labels| ==>
      && i + sequenceLength < |corpus|
      && corpus[i + sequenceLength] in characterToNumber
      && labels[i] == characterToNumber[corpus[i + sequenceLength]]
  }

  /** Window `i` is the encoding of the corpus slice it starts, position by position. */
  lemma WindowAt(corpus: string, characterToNumber: map<char, nat>, sequenceLength: nat, sequences: seq<seq<nat>>, i: nat)
    requires WindowsOf(corpus, characterToNumber, sequenceLength, sequences)
    requires i < |sequences|
    requires i + sequenceLength < |corpus|
    ensures |sequences[i]| == |corpus[i..i + sequenceLength]|
    ensures forall k :: 0 <= k < sequenceLength ==>
      && corpus[i..i + sequenceLength][k] in characterToNumber
      && sequences[i][k] == characterToNumber[corpus[i..i + sequenceLength][k]]
  {
    var text := corpus[i..i + sequenceLength];
    forall k | 0 <= k < sequenceLength
      ensures text[k] in characterToNumber && sequences[i][k] == characterToNumber[text[k]]
    {
      // Naming the number gives WindowsOf's inner quantifier the term it triggers on.
      var n := sequences[i][k];
      assert text[k] == corpus[i + k];
    }
  }

  /** The loop of `_preprocess`: one window and one label per start offset; a corpus no
      longer than `L` gives no windows and raises nothing. */
  method Preprocess(corpus: string, characterToNumber: map<char, nat>, sequenceLength: nat)
    returns (sequences: seq<seq<nat>>, labels: seq<nat>)
    requires forall k :: 0 <= k < |corpus| ==> corpus[k] in characterToNumber
    ensures |sequences| == |labels| == WindowCount(|corpus|, sequenceLength)
    ensures WindowsOf(corpus, characterToNumber, sequenceLength, sequences)
    ensures LabelsOf(corpus, characterToNumber, sequenceLength, labels)
  {
    sequences, labels := [], [];
    var count := WindowCount(|corpus|, sequenceLength);
    var i := 0;
    while i < count
      invariant 0 <= i <= count
      invariant |sequences| == |labels| == i
      invariant WindowsOf(corpus, characterToNumber, sequenceLength, sequences)
      invariant LabelsOf(corpus, characterToNumber, sequenceLength, labels)
    {
      var window := seq(sequenceLength, k requires 0 <= k < sequenceLength => characterToNumber[corpus[i + k]]);
      sequences := sequences + [window];
      labels := labels + [characterToNumber[corpus[i + sequenceLength]]];
      i := i + 1;
    }
  }

  /** One window divided by `float(len(characters))`. Every index in `[0, V)` lands in
      `[0, 1)`, and multiplying by `V` gives the index back. */
  function Normalize(window: seq<nat>, vocabularySize: nat): (r: seq<real>)
    requires vocabularySize > 0
    ensures |r| == |window|
    ensures forall k :: 0 <= k < |window| ==> r[k] * vocabularySize as real == window[k] as real
    ensures forall k :: 0 <= k < |window| && window[k] < vocabularySize ==> 0.0 <= r[k] < 1.0
  {
    var r := seq(|window|, k requires 0 <= k < |window| => window[k] as real / vocabularySize as real);
    assert forall k :: 0 <= k < |window| && window[k] < vocabularySize ==> 0.0 <= r[k] < 1.0 by {
      forall k | 0 <= k < |window| && window[k] < vocabularySize {
        QuotientBelowOne(window[k] as real, vocabularySize as real);
      }
    }
    r
  }

  lemma QuotientBelowOne(x: real, y: real)
    requires 0.0 <= x < y
    ensures 0.0 <= x / y < 1.0
  {
    var q := x / y;
    assert q * y == x;
  }

  /** The largest label. */
  function Max(labels: seq<nat>): (r: nat)
    requires |labels| > 0
    ensures forall k :: 0 <= k < |labels| ==> labels[k] <= r
    ensures r in labels
  {
    if |labels| == 1 then labels[0]
    else
      var m := Max(labels[1..]);
      assert m in labels;
      if labels[0] > m then labels[0] else m
  }

  /** `to_categorical(labels).shape[1]`, the width of the Dense output layer: one more than the
      largest label. With no labels `np.max` of an empty array raises, shown as `None`. */
  function DenseWidth(labels: seq<nat>): (r: Option<nat>)
    ensures r.None? <==> |labels| == 0
    ensures r.Some? ==> r.value > 0 && (forall k :: 0 <= k < |labels| ==> labels[k] < r.value)
    ensures r.Some? ==> r.value - 1 in labels
  {
    if |labels| == 0 then None else Some(Max(labels) + 1)
  }

  /** Labels that all index the vocabulary give a Dense layer no wider than the vocabulary. */
  lemma DenseWidthWithinVocabulary(labels: seq<nat>, vocabularySize: nat)
    requires |labels| > 0
    requires forall k :: 0 <= k < |labels| ==> labels[k] < vocabularySize
    ensures DenseWidth(labels).Some? && DenseWidth(labels).value <= vocabularySize
  {
    var w := DenseWidth(labels).value;
    assert w - 1 in labels;
  }
}
