/** The repository's own test scenario: a one-word-prefix model built from
    one sentence is the single chain The → quick → … → dog. → marker, and
    every sentence generated from it is that sentence again. */
module Scenario {
  import opened Wrappers
  import opened Tokens
  import opened Tries
  import opened Builder
  import opened Walk

  const Sentence: string := "The quick brown fox jumped over the lazy dog."

  const Words: seq<string> := ["The", "quick", "brown", "fox", "jumped", "over", "the", "lazy", "dog."]

  /** The model the test expects. */
  const Expected: Trie := Node(map[
    "The" := Successors(["quick"]),
    "quick" := Successors(["brown"]),
    "brown" := Successors(["fox"]),
    "fox" := Successors(["jumped"]),
    "jumped" := Successors(["over"]),
    "over" := Successors(["the"]),
    "the" := Successors(["lazy"]),
    "lazy" := Successors(["dog."]),
    "dog." := Successors([Terminator])])

  lemma SentenceTokensOfSentence()
    ensures SentenceTokens(Sentence) == Words + [Terminator]
  {
    JoinWords();
    WordsHaveNoSpace();
    SplitJoin(Words);
  }

  /** The sentence is its words joined by single spaces; the long literal
      is compared half by half. */
  lemma JoinWords()
    ensures Join(Words) == Sentence
  {
    JoinFront();
    JoinBack();
    SentenceHalves();
    JoinAppend(["The", "quick", "brown", "fox"], ["jumped", "over", "the", "lazy", "dog."]);
    assert Words == ["The", "quick", "brown", "fox"] + ["jumped", "over", "the", "lazy", "dog."];
  }

  lemma SentenceHalves()
    ensures Sentence == "The quick brown fox" + " " + "jumped over the lazy dog."
  {
  }

  lemma JoinFrontTail()
    ensures Join(["quick", "brown", "fox"]) == "quick brown fox"
  {
    JoinCons("brown", ["fox"], "fox", "brown fox");
    JoinCons("quick", ["brown", "fox"], "brown fox", "quick brown fox");
  }

  lemma JoinFront()
    ensures Join(["The", "quick", "brown", "fox"]) == "The quick brown fox"
  {
    JoinFrontTail();
    JoinCons("The", ["quick", "brown", "fox"], "quick brown fox", "The quick brown fox");
  }

  lemma JoinBackTail()
    ensures Join(["the", "lazy", "dog."]) == "the lazy dog."
  {
    JoinCons("lazy", ["dog."], "dog.", "lazy dog.");
    JoinCons("the", ["lazy", "dog."], "lazy dog.", "the lazy dog.");
  }

  lemma JoinBack()
    ensures Join(["jumped", "over", "the", "lazy", "dog."]) == "jumped over the lazy dog."
  {
    JoinBackTail();
    JoinCons("over", ["the", "lazy", "dog."], "the lazy dog.", "over the lazy dog.");
    JoinCons("jumped", ["over", "the", "lazy", "dog."], "over the lazy dog.", "jumped over the lazy dog.");
  }

  /** One word in front of a non-empty joined tail. */
  lemma JoinCons(w: string, ws: seq<string>, tail: string, full: string)
    requires ws != [] && Join(ws) == tail && full == w + " " + tail
    ensures Join([w] + ws) == full
  {
    assert ([w] + ws)[1..] == ws;
  }

  lemma WordsHaveNoSpace()
    ensures forall k | 0 <= k < |Words| :: |Words[k]| > 0 && NoSpace(Words[k])
  {
    forall k | 0 <= k < |Words| ensures |Words[k]| > 0 && NoSpace(Words[k]) {
      var w := Words[k];
      forall i | 0 <= i < |w| ensures !IsSpace(w[i]) {
        assert 'a' <= w[i] <= 'z' || 'A' <= w[i] <= 'Z' || w[i] == '.';
      }
    }
  }

  /** When no two steps share a key, each step's key holds its word alone. */
  lemma {:induction false} SuccessorsOfDistinct(steps: seq<Step>, i: nat)
    requires i < |steps|
    requires forall a, b | 0 <= a < b < |steps| :: steps[a].key != steps[b].key
    ensures SuccessorsOf(steps, steps[i].key) == [steps[i].word]
    decreases |steps|
  {
    if i > 0 {
      SuccessorsOfDistinct(steps[1..], i - 1);
    } else {
      SuccessorsOfEmpty(steps[1..], steps[0].key);
    }
  }

  /** With one-word prefixes, a level-one model is fixed by its flat view. */
  lemma DepthOneChildren(t: Trie, k: string)
    requires WellFormed(t, 1)
    ensures k in t.children <==> [k] in Flat(t)
    ensures k in t.children ==> t.children[k] == Successors(Flat(t)[[k]])
  {
    assert Fetch(t, [k]) == (if k in t.children then Some(t.children[k]) else None);
  }

  lemma WordsDistinct()
    ensures forall a, b | 0 <= a < b < |Words| :: Words[a] != Words[b]
  {
  }

  /** With one-word prefixes and no repeated word, the steps of a token
      list are a chain: each word's key holds exactly the next token. */
  lemma ChainFlat(tokens: seq<string>, k: string)
    requires |tokens| >= 2
    requires forall a, b | 0 <= a < b < |tokens| - 1 :: tokens[a] != tokens[b]
    ensures var m := FlatApply(map[], Steps(tokens, 1));
            && ([k] in m <==> k in tokens[..|tokens| - 1])
            && forall i | 0 <= i < |tokens| - 1 && tokens[i] == k :: m[[k]] == [tokens[i + 1]]
  {
    var steps := Steps(tokens, 1);
    forall i | 0 <= i < |steps| ensures steps[i].key == [tokens[i]] {
      assert tokens[i..i + 1] == [tokens[i]];
    }
    FlatApplyGet(map[], steps, [k]);
    if k in tokens[..|tokens| - 1] {
      var i :| 0 <= i < |tokens| - 1 && tokens[i] == k;
      SuccessorsOfDistinct(steps, i);
    } else {
      forall i | 0 <= i < |steps| ensures steps[i].key != [k] {
        assert tokens[..|tokens| - 1][i] == tokens[i];
      }
      SuccessorsOfEmpty(steps, [k]);
    }
  }

  /** A model built from one sentence without repeated words, with
      one-word prefixes, holds exactly the sentence's words as keys ... */
  lemma ChainKeys(sentence: string, k: string)
    requires forall a, b | 0 <= a < b < |SentenceTokens(sentence)| - 1 ::
               SentenceTokens(sentence)[a] != SentenceTokens(sentence)[b]
    ensures var tokens := SentenceTokens(sentence);
            k in AddSentence(Empty, 1, sentence).children <==> k in tokens[..|tokens| - 1]
  {
    assert Flat(Empty) == map[];
    DepthOneChildren(AddSentence(Empty, 1, sentence), k);
    ChainFlat(SentenceTokens(sentence), k);
  }

  /** ... and each word's list is the single token after it. */
  lemma ChainValue(sentence: string, k: string, i: nat)
    requires forall a, b | 0 <= a < b < |SentenceTokens(sentence)| - 1 ::
               SentenceTokens(sentence)[a] != SentenceTokens(sentence)[b]
    requires i < |SentenceTokens(sentence)| - 1 && SentenceTokens(sentence)[i] == k
    ensures k in AddSentence(Empty, 1, sentence).children
    ensures AddSentence(Empty, 1, sentence).children[k] == Successors([SentenceTokens(sentence)[i + 1]])
  {
    assert Flat(Empty) == map[];
    DepthOneChildren(AddSentence(Empty, 1, sentence), k);
    ChainFlat(SentenceTokens(sentence), k);
  }

  lemma BuildFromWords(sentence: string)
    requires SentenceTokens(sentence) == Words + [Terminator]
    ensures BuildModel(Empty, 1, [sentence]) == Expected
  {
    KeysFromWords(sentence);
    ValuesFromWords(sentence);
    BuildOne(sentence);
  }

  lemma BuildOne(sentence: string)
    requires AddSentence(Empty, 1, sentence).children.Keys == Expected.children.Keys
    requires forall k | k in Expected.children ::
               k in AddSentence(Empty, 1, sentence).children
               && AddSentence(Empty, 1, sentence).children[k] == Expected.children[k]
    ensures BuildModel(Empty, 1, [sentence]) == Expected
  {
    var r := AddSentence(Empty, 1, sentence);
    assert [sentence][1..] == [];
    assert BuildModel(Empty, 1, [sentence]) == BuildModel(r, 1, []) == r;
    SameChildren(r);
  }

  lemma SameChildren(r: Trie)
    requires r.Node? && r.children.Keys == Expected.children.Keys
    requires forall k | k in Expected.children :: r.children[k] == Expected.children[k]
    ensures r == Expected
  {
    assert r.children == Expected.children;
  }

  lemma KeysFromWords(sentence: string)
    requires SentenceTokens(sentence) == Words + [Terminator]
    ensures AddSentence(Empty, 1, sentence).children.Keys == Expected.children.Keys
  {
    var tokens := SentenceTokens(sentence);
    ExampleTokensDistinct(tokens);
    forall k ensures k in AddSentence(Empty, 1, sentence).children <==> k in Expected.children {
      ChainKeys(sentence, k);
      ExpectedKeys(k);
    }
  }

  lemma ValuesFromWords(sentence: string)
    requires SentenceTokens(sentence) == Words + [Terminator]
    ensures forall k | k in Expected.children ::
              k in AddSentence(Empty, 1, sentence).children
              && AddSentence(Empty, 1, sentence).children[k] == Expected.children[k]
  {
    ExampleTokensDistinct(SentenceTokens(sentence));
    forall k | k in Expected.children
      ensures k in AddSentence(Empty, 1, sentence).children
      ensures AddSentence(Empty, 1, sentence).children[k] == Expected.children[k]
    {
      ExpectedKeys(k);
      var i :| 0 <= i < |Words| && Words[i] == k;
      ValueAt(sentence, i);
    }
  }

  lemma ValueAt(sentence: string, i: nat)
    requires SentenceTokens(sentence) == Words + [Terminator]
    requires forall a, b | 0 <= a < b < |SentenceTokens(sentence)| - 1 ::
               SentenceTokens(sentence)[a] != SentenceTokens(sentence)[b]
    requires i < |Words|
    ensures Words[i] in AddSentence(Empty, 1, sentence).children
    ensures AddSentence(Empty, 1, sentence).children[Words[i]] == Expected.children[Words[i]]
  {
    ChainValue(sentence, Words[i], i);
    ExpectedAt(i);
  }

  lemma ExampleTokensDistinct(tokens: seq<string>)
    requires tokens == Words + [Terminator]
    ensures |tokens| >= 2 && tokens[..|tokens| - 1] == Words
    ensures forall a, b | 0 <= a < b < |tokens| - 1 :: tokens[a] != tokens[b]
  {
    WordsDistinct();
  }

  /** test.js: building from the one sentence with `prefixSize` 1 gives
      exactly the expected chain. */
  lemma BuildExample()
    ensures BuildModel(Empty, 1, [Sentence]) == Expected
  {
    SentenceTokensOfSentence();
    BuildFromWords(Sentence);
  }

  lemma ExpectedKeys(k: string)
    ensures k in Expected.children <==> k in Words
  {
  }

  lemma ExpectedAt(i: nat)
    requires i < |Words|
    ensures Words[i] in Expected.children
    ensures Expected.children[Words[i]] == Successors([(Words + [Terminator])[i + 1]])
  {
  }

  /** The tokens after each word of the example, ending with the marker. */
  lemma LookupExpected(i: nat)
    requires i < |Words|
    ensures Lookup(Expected, [Words[i]]) == Some([(Words + [Terminator])[i + 1]])
  {
    ExpectedAt(i);
    assert Fetch(Expected, [Words[i]]) == Fetch(Expected.children[Words[i]], []);
  }

  lemma WordsAreNotTerminator(i: nat)
    requires i < |Words|
    ensures Words[i] != Terminator
  {
    WordsHaveNoSpace();
    WordIsNotTerminator(Words[i]);
  }

  /** Only "The" may start a sentence in the example model. */
  lemma StartIsThe(start: seq<string>)
    requires ValidStart(Expected, 1, start)
    ensures start == [Words[0]]
  {
    ExpectedKeys(start[0]);
    var i :| 0 <= i < |Words| && Words[i] == start[0];
    assert StartsUpper(Words[i]);
    assert i == 0;
  }

  /** From the window holding word `i`, every draw sequence that reaches
      the marker draws exactly the rest of the sentence first. */
  lemma {:induction false} ChainDraws(i: nat, draws: seq<string>)
    requires i < |Words| && ValidDraws(Expected, [Words[i]], draws)
    requires FirstTerminator(draws) < |draws|
    ensures FirstTerminator(draws) == |Words| - 1 - i
    ensures draws[..FirstTerminator(draws)] == Words[i + 1..]
    decreases |Words| - i
  {
    if i == |Words| - 1 {
      ChainDrawLast(draws);
    } else {
      ChainDrawStep(i, draws);
      ChainDraws(i + 1, draws[1..]);
      ConsSlice(draws, Words, i + 1, FirstTerminator(draws[1..]));
    }
  }

  lemma ChainDrawLast(draws: seq<string>)
    requires draws != [] && ValidDraws(Expected, [Words[|Words| - 1]], draws)
    ensures draws[0] == Terminator
  {
    LookupExpected(|Words| - 1);
  }

  lemma ChainDrawStep(i: nat, draws: seq<string>)
    requires i < |Words| - 1 && draws != [] && ValidDraws(Expected, [Words[i]], draws)
    ensures draws[0] == Words[i + 1] && draws[0] != Terminator
    ensures ValidDraws(Expected, [Words[i + 1]], draws[1..])
  {
    LookupExpected(i);
    WordsAreNotTerminator(i + 1);
    assert [Words[i]][1..] + [draws[0]] == [Words[i + 1]];
  }

  lemma ConsSlice(d: seq<string>, ws: seq<string>, j: nat, n: nat)
    requires n < |d| && j < |ws| && d[0] == ws[j] && d[1..][..n] == ws[j + 1..]
    ensures d[..n + 1] == ws[j..]
  {
    assert d[..n + 1] == [d[0]] + d[1..][..n];
    assert ws[j..] == [ws[j]] + ws[j + 1..];
  }

  /** ... and drawing the rest of the sentence is always possible. */
  lemma {:induction false} ChainValid(i: nat)
    requires i < |Words|
    ensures ValidDraws(Expected, [Words[i]], Words[i + 1..] + [Terminator])
    decreases |Words| - i
  {
    LookupExpected(i);
    var draws := Words[i + 1..] + [Terminator];
    if i < |Words| - 1 {
      WordsAreNotTerminator(i + 1);
      assert draws[0] == Words[i + 1];
      assert [Words[i]][1..] + [draws[0]] == [Words[i + 1]];
      assert draws[1..] == Words[i + 2..] + [Terminator];
      ChainValid(i + 1);
    }
  }

  /** test.js: every sentence generated from the example model is the
      example sentence, so two generators holding that model agree. */
  lemma GenerateExample(start: seq<string>, draws: seq<string>)
    requires ValidStart(Expected, 1, start) && ValidDraws(Expected, start, draws)
    requires FirstTerminator(draws) < |draws|
    ensures GenerateCandidate(Expected, 1, start, draws) == Some(Sentence)
  {
    StartIsThe(start);
    ChainDraws(0, draws);
    JoinWords();
    GenerateChain(Expected, start, draws, Words, Sentence);
  }

  /** A one-word walk that draws the rest of `words` and then the marker
      generates the words joined. */
  lemma GenerateChain(t: Trie, start: seq<string>, draws: seq<string>, words: seq<string>, sentence: string)
    requires ValidStart(t, 1, start) && ValidDraws(t, start, draws)
    requires FirstTerminator(draws) < |draws|
    requires |words| >= 1 && start == [words[0]] && draws[..FirstTerminator(draws)] == words[1..]
    requires Join(words) == sentence
    ensures GenerateCandidate(t, 1, start, draws) == Some(sentence)
  {
    var n := FirstTerminator(draws);
    var stream := start + draws;
    assert stream[1..] == draws;
    ConsSlice(stream, words, 0, n);
    assert words[0..] == words;
    var s := GenerateCandidate(t, 1, start, draws);
    assert s.value == Join(stream[..n + 1]);
  }

  /** The start and draws of that sentence are ones the generator can make. */
  lemma ExampleRunExists()
    ensures ValidStart(Expected, 1, ["The"])
    ensures ValidDraws(Expected, ["The"], Words[1..] + [Terminator])
    ensures FirstTerminator(Words[1..] + [Terminator]) == |Words| - 1
  {
    ExpectedKeys("The");
    ChainValid(0);
    var draws := Words[1..] + [Terminator];
    forall j | 0 <= j < |Words| - 1 ensures draws[j] != Terminator {
      WordsAreNotTerminator(j + 1);
    }
    assert draws[|Words| - 1] == Terminator;
  }
}
