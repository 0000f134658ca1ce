/** The character vocabulary of `_create_character_number_mapping` and the two
    dictionary look-ups built on it (encoding windows, `_sequence_to_string`). */
module Vocabulary {
  import opened Results
  import opened Text

  predicate StrictlyIncreasing(s: seq<char>)
  {
    forall i, j :: 0 <= i < j < |s| ==> s[i] < s[j]
  }

  /** Adds `c` to a sorted, duplicate-free sequence, keeping it so. */
  function Insert(sorted: seq<char>, c: char): (r: seq<char>)
    requires StrictlyIncreasing(sorted)
    ensures StrictlyIncreasing(r)
    ensures forall x :: x in r <==> x in sorted || x == c
  {
    if |sorted| == 0 then [c]
    else if c == sorted[0] then sorted
    else if c < sorted[0] then [c] + sorted
    else
      var rest := Insert(sorted[1..], c);
      assert forall k :: 0 <= k < |rest| ==> rest[k] in rest;
      [sorted[0]] + rest
  }

  /** `sorted(list(set(corpus)))`: the distinct characters of the corpus in code-point order. */
  function Characters(corpus: string): (r: seq<char>)
    ensures StrictlyIncreasing(r)
    ensures forall c :: c in r <==> c in corpus
  {
    if |corpus| == 0 then []
    else
      var init := corpus[..|corpus| - 1];
      assert corpus == init + [corpus[|corpus| - 1]];
      Insert(Characters(init), corpus[|corpus| - 1])
  }

  /** A sorted, duplicate-free sequence is fixed by its elements, so `Characters` is the
      only ordering `sorted(set(...))` can produce. */
  lemma {:induction false} SortedUnique(a: seq<char>, b: seq<char>)
    requires StrictlyIncreasing(a) && StrictlyIncreasing(b)
    requires forall c :: c in a <==> c in b
    ensures a == b
    decreases |a|
  {
    if |a| > 0 || |b| > 0 {
      assert |a| > 0 ==> a[0] in b;
      assert |b| > 0 ==> b[0] in a;
      assert a[0] == b[0];
      forall c
        ensures c in a[1..] <==> c in b[1..]
      {
        if c in a[1..] {
          var i :| 1 <= i < |a| && a[i] == c;
          assert c in b;
          var k :| 0 <= k < |b| && b[k] == c;
          assert k != 0;
          assert b[1..][k - 1] == c;
        }
        if c in b[1..] {
          var i :| 1 <= i < |b| && b[i] == c;
          assert c in a;
          var k :| 0 <= k < |a| && a[k] == c;
          assert k != 0;
          assert a[1..][k - 1] == c;
        }
      }
      SortedUnique(a[1..], b[1..]);
      assert a == [a[0]] + a[1..] && b == [b[0]] + b[1..];
    }
  }

  /** The three attributes `_create_character_number_mapping` sets. */
  datatype Mapping = Mapping(characters: seq<char>, numberToCharacter: map<nat, char>, characterToNumber: map<char, nat>)

  /** The dictionaries of `m` are those `enumerate(m.characters)` gives: `numberToCharacter`
      is keyed by the positions `0 .. V - 1`, `characterToNumber` by the characters, and both
      agree with `m.characters` at every position. */
  ghost predicate Indexes(m: Mapping)
  {
    && (forall n :: n in m.numberToCharacter <==> 0 <= n < |m.characters|)
    && (forall c :: c in m.characterToNumber <==> c in m.characters)
    && (forall n :: 0 <= n < |m.characters| ==>
          m.numberToCharacter[n] == m.characters[n] && m.characterToNumber[m.characters[n]] == n)
  }

  /** `_create_character_number_mapping`: the sorted vocabulary and the two dictionaries built
      from `enumerate(characters)`. */
  function CreateMapping(corpus: string): (m: Mapping)
    ensures StrictlyIncreasing(m.characters)
    ensures forall c :: c in m.characters <==> c in corpus
    ensures Indexes(m)
  {
    var characters := Characters(corpus);
    var numberToCharacter := map n: nat | n < |characters| :: characters[n];
    var characterToNumber := map c | c in characters :: FirstIndex(characters, c);
    assert forall n: nat :: n < |characters| ==> FirstIndex(characters, characters[n]) == n;
    Mapping(characters, numberToCharacter, characterToNumber)
  }

  /** The vocabulary fixes both dictionaries: there is only one mapping with given
      `characters` that satisfies `Indexes`. */
  lemma IndexesDetermine(m1: Mapping, m2: Mapping)
    requires Indexes(m1) && Indexes(m2)
    requires m1.characters == m2.characters
    ensures m1 == m2
  {
    assert m1.numberToCharacter == m2.numberToCharacter;
    forall c | c in m1.characterToNumber
      ensures c in m2.characterToNumber && m1.characterToNumber[c] == m2.characterToNumber[c]
    {
      var n :| 0 <= n < |m1.characters| && m1.characters[n] == c;
    }
    assert m1.characterToNumber == m2.characterToNumber;
  }

  /** The two dictionaries are mutual inverses between the vocabulary and `[0, V)`. */
  lemma MappingsInverse(m: Mapping)
    requires Indexes(m)
    ensures forall c :: c in m.characterToNumber ==>
      m.characterToNumber[c] < |m.characters| && m.numberToCharacter[m.characterToNumber[c]] == c
    ensures forall n :: n in m.numberToCharacter ==>
      m.numberToCharacter[n] in m.characterToNumber && m.characterToNumber[m.numberToCharacter[n]] == n
  {
    forall c | c in m.characterToNumber
      ensures m.characterToNumber[c] < |m.characters| && m.numberToCharacter[m.characterToNumber[c]] == c
    {
      var n :| 0 <= n < |m.characters| && m.characters[n] == c;
    }
  }

  /** The number of a vocabulary character is in range and names that character. */
  lemma NumberOfCharacter(m: Mapping, c: char)
    requires Indexes(m)
    requires c in m.characterToNumber
    ensures m.characterToNumber[c] < |m.characters|
    ensures m.numberToCharacter[m.characterToNumber[c]] == c
  {
    var n :| 0 <= n < |m.characters| && m.characters[n] == c;
  }

  /** Looks every element of `xs` up in `m`, as a Python list comprehension over a dictionary
      does; `None` stands for the `KeyError` raised at the first missing key. */
  function LookUpAll<K(==), V>(m: map<K, V>, xs: seq<K>): (r: Option<seq<V>>)
    ensures r.Some? <==> forall i :: 0 <= i < |xs| ==> xs[i] in m
    ensures r.Some? ==> |r.value| == |xs| && forall i :: 0 <= i < |xs| ==> r.value[i] == m[xs[i]]
  {
    if |xs| == 0 then Some([])
    else if xs[0] !in m then None
    else match LookUpAll(m, xs[1..])
      case None => None
      case Some(rest) => Some([m[xs[0]]] + rest)
  }

  /** Looking up a concatenation is looking up each part: it succeeds exactly when both do,
      and gives the two results one after the other. */
  lemma LookUpAllAppend<K, V>(m: map<K, V>, xs: seq<K>, ys: seq<K>)
    ensures LookUpAll(m, xs + ys).Some? <==> LookUpAll(m, xs).Some? && LookUpAll(m, ys).Some?
    ensures LookUpAll(m, xs + ys).Some? ==>
      LookUpAll(m, xs + ys).value == LookUpAll(m, xs).value + LookUpAll(m, ys).value
  {
    var zs := xs + ys;
    assert forall i :: 0 <= i < |xs| ==> zs[i] == xs[i];
    assert forall i :: 0 <= i < |ys| ==> zs[|xs| + i] == ys[i];
    if LookUpAll(m, zs).Some? {
      var r := LookUpAll(m, zs).value;
      var a := LookUpAll(m, xs).value;
      var c := LookUpAll(m, ys).value;
      assert forall i :: 0 <= i < |zs| ==> r[i] == (a + c)[i];
    }
  }

  /** The index window of a stretch of text, via `character_to_number`. */
  function Encode(m: Mapping, text: string): (r: Option<seq<nat>>)
    ensures r.Some? <==> forall k :: 0 <= k < |text| ==> text[k] in m.characterToNumber
    ensures r.Some? ==> |r.value| == |text|
  {
    LookUpAll(m.characterToNumber, text)
  }

  /** `_sequence_to_string`: the characters of an index sequence via `number_to_character`. */
  function SequenceToString(m: Mapping, sequence: seq<nat>): (r: Option<string>)
    ensures r.Some? <==> forall k :: 0 <= k < |sequence| ==> sequence[k] in m.numberToCharacter
    ensures r.Some? ==> |r.value| == |sequence|
  {
    LookUpAll(m.numberToCharacter, sequence)
  }

  /** Encoding vocabulary text and rendering it back gives the text again, through indices
      in range. `CreateMapping` satisfies `Indexes`, so this holds of the mapping of a corpus
      and any text drawn from that corpus. */
  lemma EncodeThenRender(m: Mapping, text: string)
    requires Indexes(m)
    requires forall k :: 0 <= k < |text| ==> text[k] in m.characters
    ensures Encode(m, text).Some?
    ensures forall k :: 0 <= k < |text| ==> Encode(m, text).value[k] < |m.characters|
    ensures SequenceToString(m, Encode(m, text).value) == Some(text)
  {
    MappingsInverse(m);
    var e := Encode(m, text).value;
    var r := SequenceToString(m, e);
    assert r.Some?;
    assert r.value == text;
  }

  /** A sequence that encodes `text` position by position renders back to `text`. */
  lemma RenderEncoded(m: Mapping, text: string, sequence: seq<nat>)
    requires Indexes(m)
    requires |sequence| == |text|
    requires forall k :: 0 <= k < |text| ==>
      text[k] in m.characterToNumber && sequence[k] == m.characterToNumber[text[k]]
    ensures forall k :: 0 <= k < |sequence| ==> sequence[k] < |m.characters|
    ensures SequenceToString(m, sequence) == Some(text)
  {
    MappingsInverse(m);
    var r := SequenceToString(m, sequence);
    assert r.Some?;
    assert r.value == text;
  }

  /** Rendering indices in `[0, V)` and encoding the text gives the indices back; an index
      outside that range makes `_sequence_to_string` raise. */
  lemma RenderThenEncode(m: Mapping, sequence: seq<nat>)
    requires Indexes(m)
    ensures SequenceToString(m, sequence).Some? <==>
      forall k :: 0 <= k < |sequence| ==> sequence[k] < |m.characters|
    ensures SequenceToString(m, sequence).Some? ==>
      Encode(m, SequenceToString(m, sequence).value) == Some(sequence)
  {
    MappingsInverse(m);
    var r := SequenceToString(m, sequence);
    if r.Some? {
      var e := Encode(m, r.value);
      assert e.Some?;
      assert e.value == sequence;
    }
  }
}
