/** `generate`: greedy autoregressive decoding over a sliding buffer of symbol indices.
    The trained network is a parameter: a function from a normalised window to one score
    per output class. */
module Decoding {
  import opened Results
  import opened Preprocessing

  /** The network at inference time, a pure function of its input window. */
  type Predictor = seq<real> -> seq<real>

  /** The predictor returns `width` scores for every window, as a Dense layer of that width does. */
  ghost predicate Shaped(predict: Predictor, width: nat)
  {
    forall x :: |predict(x)| == width
  }

  /** `i` is the first position of a maximal score: numpy's `argmax`. */
  predicate IsArgmax(scores: seq<real>, i: nat)
  {
    && i < |scores|
    && (forall j :: 0 <= j < |scores| ==> scores[j] <= scores[i])
    && (forall j :: 0 <= j < i ==> scores[j] < scores[i])
  }

  /** `np.argmax`: the position of the largest score, the lowest one on ties. */
  function Argmax(scores: seq<real>): (r: nat)
    requires |scores| > 0
    ensures IsArgmax(scores, r)
  {
    if |scores| == 1 then 0
    else
      var r := Argmax(scores[..|scores| - 1]);
      assert scores[..|scores| - 1][r] == scores[r];
      if scores[|scores| - 1] > scores[r] then |scores| - 1 else r
  }

  /** At most one position is the argmax, so `Argmax` is determined by `IsArgmax`. */
  lemma ArgmaxUnique(scores: seq<real>, i: nat)
    requires IsArgmax(scores, i)
    ensures i == Argmax(scores)
  {
  }

  /** One step's prediction: the argmax of the scores of the normalised buffer, or `None`
      when the score vector is empty (`np.argmax` raises on an empty array). */
  function PredictNext(predict: Predictor, vocabularySize: nat, buffer: seq<nat>): (r: Option<nat>)
    requires vocabularySize > 0
    ensures r.None? <==> |predict(Normalize(buffer, vocabularySize))| == 0
    ensures r.Some? ==> IsArgmax(predict(Normalize(buffer, vocabularySize)), r.value)
  {
    var scores := predict(Normalize(buffer, vocabularySize));
    if |scores| == 0 then None else Some(Argmax(scores))
  }

  /** The loop of `generate`: `steps` rounds of predicting, appending the prediction and
      dropping the oldest index. The buffer keeps its length throughout. */
  function Run(predict: Predictor, vocabularySize: nat, buffer: seq<nat>, steps: nat): (r: Option<seq<nat>>)
    requires vocabularySize > 0
    ensures r.Some? ==> |r.value| == |buffer|
    decreases steps
  {
    if steps == 0 then Some(buffer)
    else match PredictNext(predict, vocabularySize, buffer)
      case None => None
      case Some(p) => Run(predict, vocabularySize, (buffer + [p])[1..], steps - 1)
  }

  /** The indices `Run` predicts, in order. */
  function Predictions(predict: Predictor, vocabularySize: nat, buffer: seq<nat>, steps: nat): (r: Option<seq<nat>>)
    requires vocabularySize > 0
    ensures r.Some? ==> |r.value| == steps
    decreases steps
  {
    if steps == 0 then Some([])
    else match PredictNext(predict, vocabularySize, buffer)
      case None => None
      case Some(p) =>
        match Predictions(predict, vocabularySize, (buffer + [p])[1..], steps - 1)
        case None => None
        case Some(rest) => Some([p] + rest)
  }

  /** `ps` is what greedy decoding from `seed` produces: every prediction is the argmax for
      the `|seed|` indices just before it in the stream `seed + ps`. */
  ghost predicate IsDecoding(predict: Predictor, vocabularySize: nat, seed: seq<nat>, ps: seq<nat>)
    requires vocabularySize > 0
  {
    forall j :: 0 <= j < |ps| ==> PredictNext(predict, vocabularySize, (seed + ps)[j..j + |seed|]) == Some(ps[j])
  }

  /** Dropping the first index of the stream after one append. */
  lemma ShiftStream(seed: seq<nat>, p: nat, rest: seq<nat>)
    ensures (seed + [p])[1..] + rest == (seed + ([p] + rest))[1..]
  {
    if |seed| == 0 {
      assert (seed + [p])[1..] == [];
    }
  }

  /** Whenever `Run` finishes, its result is the last `|buffer|` indices of the stream
      `buffer + predictions`, and the predictions are a greedy decoding of `buffer`. */
  lemma {:induction false} RunIsStreamSuffix(predict: Predictor, vocabularySize: nat, buffer: seq<nat>, steps: nat)
    requires vocabularySize > 0
    ensures Run(predict, vocabularySize, buffer, steps).Some? <==> Predictions(predict, vocabularySize, buffer, steps).Some?
    ensures Run(predict, vocabularySize, buffer, steps).Some? ==>
      var ps := Predictions(predict, vocabularySize, buffer, steps).value;
      && IsDecoding(predict, vocabularySize, buffer, ps)
      && Run(predict, vocabularySize, buffer, steps).value == (buffer + ps)[steps..]
    decreases steps
  {
    if steps > 0 {
      var next := PredictNext(predict, vocabularySize, buffer);
      if next.Some? {
        var p := next.value;
        var shifted := (buffer + [p])[1..];
        RunIsStreamSuffix(predict, vocabularySize, shifted, steps - 1);
        if Run(predict, vocabularySize, buffer, steps).Some? {
          var rest := Predictions(predict, vocabularySize, shifted, steps - 1).value;
          var ps := [p] + rest;
          assert Predictions(predict, vocabularySize, buffer, steps).value == ps;
          ShiftStream(buffer, p, rest);
          var stream := buffer + ps;
          assert shifted + rest == stream[1..];
          assert stream[..|buffer|] == buffer;
          forall j | 0 <= j < |ps|
            ensures PredictNext(predict, vocabularySize, stream[j..j + |buffer|]) == Some(ps[j])
          {
            if j == 0 {
              assert stream[0..|buffer|] == buffer;
            } else {
              assert stream[j..j + |buffer|] == (shifted + rest)[j - 1..j - 1 + |shifted|];
            }
          }
          assert (shifted + rest)[steps - 1..] == stream[steps..];
        }
      }
    }
  }

  /** Conversely, any greedy decoding `ps` of `seed` is what `Run` computes in `|ps|` steps:
      the result is the last `|seed|` indices of `seed + ps`. */
  lemma {:induction false} DecodingDeterminesRun(predict: Predictor, vocabularySize: nat, seed: seq<nat>, ps: seq<nat>)
    requires vocabularySize > 0
    requires IsDecoding(predict, vocabularySize, seed, ps)
    ensures Run(predict, vocabularySize, seed, |ps|) == Some((seed + ps)[|ps|..])
    ensures Predictions(predict, vocabularySize, seed, |ps|) == Some(ps)
    decreases |ps|
  {
    if |ps| > 0 {
      var stream := seed + ps;
      var p := ps[0];
      var rest := ps[1..];
      assert stream[0..|seed|] == seed;
      assert PredictNext(predict, vocabularySize, seed) == Some(p);
      var shifted := (seed + [p])[1..];
      assert [p] + rest == ps;
      ShiftStream(seed, p, rest);
      assert shifted + rest == stream[1..];
      forall j | 0 <= j < |rest|
        ensures PredictNext(predict, vocabularySize, (shifted + rest)[j..j + |shifted|]) == Some(rest[j])
      {
        assert (shifted + rest)[j..j + |shifted|] == stream[j + 1..j + 1 + |seed|];
      }
      DecodingDeterminesRun(predict, vocabularySize, shifted, rest);
      assert Run(predict, vocabularySize, seed, |ps|) == Run(predict, vocabularySize, shifted, |rest|);
      assert (shifted + rest)[|rest|..] == stream[|ps|..];
    } else {
      assert seed + ps == seed;
    }
  }

  /** Predicting `a + b` steps is predicting `a` steps and then `b` more from the buffer
      those `a` steps leave: a later call to `generate` on the result continues the stream. */
  lemma {:induction false} PredictionsSplit(predict: Predictor, vocabularySize: nat, buffer: seq<nat>, a: nat, b: nat)
    requires vocabularySize > 0
    ensures Run(predict, vocabularySize, buffer, a).Some? <==> Predictions(predict, vocabularySize, buffer, a).Some?
    ensures Predictions(predict, vocabularySize, buffer, a + b).Some? <==>
      && Run(predict, vocabularySize, buffer, a).Some?
      && Predictions(predict, vocabularySize, Run(predict, vocabularySize, buffer, a).value, b).Some?
    ensures Predictions(predict, vocabularySize, buffer, a + b).Some? ==>
      Predictions(predict, vocabularySize, buffer, a + b).value ==
        Predictions(predict, vocabularySize, buffer, a).value
        + Predictions(predict, vocabularySize, Run(predict, vocabularySize, buffer, a).value, b).value
    decreases a
  {
    if a == 0 {
      assert Predictions(predict, vocabularySize, buffer, a).value == [];
    } else {
      var next := PredictNext(predict, vocabularySize, buffer);
      if next.Some? {
        var p := next.value;
        var shifted := (buffer + [p])[1..];
        PredictionsSplit(predict, vocabularySize, shifted, a - 1, b);
        assert a + b - 1 == (a - 1) + b;
        if Predictions(predict, vocabularySize, buffer, a + b).Some? {
          var head := Predictions(predict, vocabularySize, shifted, a - 1).value;
          var tail := Predictions(predict, vocabularySize, Run(predict, vocabularySize, shifted, a - 1).value, b).value;
          assert Predictions(predict, vocabularySize, buffer, a).value == [p] + head;
          assert [p] + (head + tail) == ([p] + head) + tail;
        }
      }
    }
  }

  /** With a seed as long as the number of steps, nothing of the seed survives: the result is
      exactly the predictions. */
  lemma SeedFullyReplaced(predict: Predictor, vocabularySize: nat, seed: seq<nat>)
    requires vocabularySize > 0
    ensures Run(predict, vocabularySize, seed, |seed|).Some? ==>
      Run(predict, vocabularySize, seed, |seed|) == Predictions(predict, vocabularySize, seed, |seed|)
  {
    RunIsStreamSuffix(predict, vocabularySize, seed, |seed|);
    if Run(predict, vocabularySize, seed, |seed|).Some? {
      var ps := Predictions(predict, vocabularySize, seed, |seed|).value;
      assert (seed + ps)[|seed|..] == ps;
    }
  }

  /** A predictor with a non-empty output layer never makes `generate` raise, every
      prediction indexes that layer, and a buffer of indices below `bound >= width` stays so. */
  lemma {:induction false} RunTotal(predict: Predictor, vocabularySize: nat, width: nat, bound: nat, buffer: seq<nat>, steps: nat)
    requires vocabularySize > 0
    requires Shaped(predict, width) && 0 < width <= bound
    requires forall k :: 0 <= k < |buffer| ==> buffer[k] < bound
    ensures Run(predict, vocabularySize, buffer, steps).Some?
    ensures Predictions(predict, vocabularySize, buffer, steps).Some?
    ensures forall k :: 0 <= k < steps ==> Predictions(predict, vocabularySize, buffer, steps).value[k] < width
    ensures forall k :: 0 <= k < |buffer| ==> Run(predict, vocabularySize, buffer, steps).value[k] < bound
    decreases steps
  {
    if steps > 0 {
      var scores := predict(Normalize(buffer, vocabularySize));
      assert |scores| == width;
      var p := PredictNext(predict, vocabularySize, buffer).value;
      var shifted := (buffer + [p])[1..];
      assert forall k :: 0 <= k < |shifted| ==> shifted[k] == (buffer + [p])[k + 1];
      RunTotal(predict, vocabularySize, width, bound, shifted, steps - 1);
    }
  }

  /** A predictor that always returns the same scores fills the buffer with copies of their
      argmax. */
  lemma ConstantPredictor(predict: Predictor, vocabularySize: nat, scores: seq<real>, seed: seq<nat>)
    requires vocabularySize > 0
    requires |scores| > 0
    requires forall x :: predict(x) == scores
    ensures Run(predict, vocabularySize, seed, |seed|) == Some(seq(|seed|, _ => Argmax(scores)))
  {
    var ps := seq(|seed|, _ => Argmax(scores));
    assert IsDecoding(predict, vocabularySize, seed, ps);
    DecodingDeterminesRun(predict, vocabularySize, seed, ps);
    assert (seed + ps)[|ps|..] == ps;
  }

  /** An example of `ConstantPredictor`: scores `[0.9, 0.1]` pick index 0, so such a
      predictor yields only index 0. */
  lemma FirstClassWins()
    ensures Argmax([0.9, 0.1]) == 0
  {
    ArgmaxUnique([0.9, 0.1], 0);
  }
}
