/** Building the model from training sentences (`buildModel` and
    `_addSentenceToModel`), and the invariants the built model keeps. */
module Builder {
  import opened Tokens
  import opened Tries

  /** One recorded transition: `word` followed the prefix `key`. */
  datatype Step = Step(key: seq<string>, word: string)

  /** The token list of one sentence: its whitespace-split words followed
      by the end-of-line marker. */
  function SentenceTokens(sentence: string): (tokens: seq<string>)
    ensures |tokens| >= 2 && tokens[|tokens| - 1] == Terminator
    ensures forall j | 0 <= j < |tokens| - 1 :: NoSpace(tokens[j]) && tokens[j] != Terminator
  {
    var words := Split(sentence);
    forall j | 0 <= j < |words| ensures words[j] != Terminator {
      WordIsNotTerminator(words[j]);
    }
    words + [Terminator]
  }

  lemma WordIsNotTerminator(w: string)
    requires NoSpace(w)
    ensures w != Terminator
  {
    if w == Terminator {
      assert IsSpace(w[0]);
    }
  }

  /** Reference for one sentence: for each position `j` from `prefixSize`
      to the last token, in order, token `j` follows the `prefixSize`
      tokens before it. */
  function Steps(tokens: seq<string>, prefixSize: nat): (steps: seq<Step>)
    ensures |steps| == if |tokens| > prefixSize then |tokens| - prefixSize else 0
    ensures forall i | 0 <= i < |steps| ::
              steps[i] == Step(tokens[i..i + prefixSize], tokens[i + prefixSize])
  {
    if |tokens| <= prefixSize then []
    else seq(|tokens| - prefixSize, i requires 0 <= i < |tokens| - prefixSize =>
               Step(tokens[i..i + prefixSize], tokens[i + prefixSize]))
  }

  /** The flat view's reference semantics: apply the pushes in order. */
  function FlatApply(m: Table, steps: seq<Step>): Table
    decreases |steps|
  {
    if steps == [] then m else FlatApply(FlatPush(m, steps[0].key, steps[0].word), steps[1..])
  }

  /** The words the steps record under `key`, in order. */
  function SuccessorsOf(steps: seq<Step>, key: seq<string>): seq<string>
    decreases |steps|
  {
    if steps == [] then []
    else (if steps[0].key == key then [steps[0].word] else []) + SuccessorsOf(steps[1..], key)
  }

  /** Every recorded word comes from a step with that key ... */
  lemma {:induction false} SuccessorsOfOrigin(steps: seq<Step>, key: seq<string>, w: string)
    requires w in SuccessorsOf(steps, key)
    ensures exists i | 0 <= i < |steps| :: steps[i] == Step(key, w)
    decreases |steps|
  {
    if steps[0] != Step(key, w) {
      assert w in SuccessorsOf(steps[1..], key);
      SuccessorsOfOrigin(steps[1..], key, w);
      var i :| 0 <= i < |steps[1..]| && steps[1..][i] == Step(key, w);
      assert steps[i + 1] == Step(key, w);
    }
  }

  /** ... and nothing is recorded exactly when no step has the key. */
  lemma {:induction false} SuccessorsOfEmpty(steps: seq<Step>, key: seq<string>)
    ensures SuccessorsOf(steps, key) == [] <==> forall i | 0 <= i < |steps| :: steps[i].key != key
    decreases |steps|
  {
    if steps != [] {
      SuccessorsOfEmpty(steps[1..], key);
      if steps[0].key != key {
        forall i | 1 <= i < |steps| ensures steps[i].key == steps[1..][i - 1].key {
        }
      }
    }
  }

  lemma {:induction false} SuccessorsOfComplete(steps: seq<Step>, i: nat)
    requires i < |steps|
    ensures steps[i].word in SuccessorsOf(steps, steps[i].key)
    decreases i
  {
    if i > 0 {
      SuccessorsOfComplete(steps[1..], i - 1);
    }
  }

  /** The append rule, key by key: every list ends up as its old value
      followed by exactly the words the steps record under its key, and a
      key is present afterwards iff it was before or some step uses it. */
  lemma FlatApplyGet(m: Table, steps: seq<Step>, key: seq<string>)
    ensures Get(FlatApply(m, steps), key) == Get(m, key) + SuccessorsOf(steps, key)
    ensures key in FlatApply(m, steps) <==> key in m || SuccessorsOf(steps, key) != []
  {
    FlatApplyValue(m, steps, key);
    FlatApplyKey(m, steps, key);
  }

  lemma {:induction false} FlatApplyValue(m: Table, steps: seq<Step>, key: seq<string>)
    ensures Get(FlatApply(m, steps), key) == Get(m, key) + SuccessorsOf(steps, key)
    decreases |steps|
  {
    if steps == [] {
      assert Get(m, key) + [] == Get(m, key);
    } else {
      var m' := FlatPush(m, steps[0].key, steps[0].word);
      FlatApplyValue(m', steps[1..], key);
      var before, later := Get(m, key), SuccessorsOf(steps[1..], key);
      if steps[0].key == key {
        assert (before + [steps[0].word]) + later == before + ([steps[0].word] + later);
      } else {
        assert [] + later == later;
      }
    }
  }

  lemma {:induction false} FlatApplyKey(m: Table, steps: seq<Step>, key: seq<string>)
    ensures key in FlatApply(m, steps) <==> key in m || SuccessorsOf(steps, key) != []
    decreases |steps|
  {
    if steps != [] {
      var m' := FlatPush(m, steps[0].key, steps[0].word);
      FlatApplyKey(m', steps[1..], key);
      assert key in m' <==> key in m || steps[0].key == key;
    }
  }

  /** The loop of `_addSentenceToModel` that runs until the tokens are
      used up: push the next token under the current window, then slide
      the window. */
  function Feed(t: Trie, window: seq<string>, rest: seq<string>): (r: Trie)
    requires |window| >= 1 && WellFormed(t, |window|)
    ensures WellFormed(r, |window|)
    ensures Flat(r) == FlatApply(Flat(t), Steps(window + rest, |window|))
    decreases |rest|
  {
    if rest == [] then
      assert Steps(window + rest, |window|) == [];
      t
    else
      var next := rest[0];
      var t' := Push(t, window, next);
      var window' := window[1..] + [next];
      var r := Feed(t', window', rest[1..]);
      PushFlat(t, window, next);
      StepsSlide(window, rest);
      r
  }

  lemma StepsSlide(window: seq<string>, rest: seq<string>)
    requires |window| >= 1 && |rest| >= 1
    ensures Steps(window + rest, |window|)
         == [Step(window, rest[0])] + Steps(window[1..] + [rest[0]] + rest[1..], |window|)
  {
    var p := |window|;
    var x := window + rest;
    var y := window[1..] + [rest[0]] + rest[1..];
    assert y == x[1..];
    var a, b := Steps(x, p), [Step(window, rest[0])] + Steps(y, p);
    assert |a| == |b|;
    forall i | 0 <= i < |a| ensures a[i] == b[i] {
      if i == 0 {
        assert x[..p] == window;
      } else {
        assert y[i - 1..i - 1 + p] == x[i..i + p];
      }
    }
  }

  /** `_addSentenceToModel`: the first `prefixSize` tokens form the
      window; when no token is left after them nothing is recorded. */
  function AddSentence(t: Trie, prefixSize: nat, sentence: string): (r: Trie)
    requires prefixSize >= 1 && WellFormed(t, prefixSize)
    ensures WellFormed(r, prefixSize)
    ensures Flat(r) == FlatApply(Flat(t), Steps(SentenceTokens(sentence), prefixSize))
  {
    var tokens := SentenceTokens(sentence);
    if |tokens| <= prefixSize then t
    else
      assert tokens[..prefixSize] + tokens[prefixSize..] == tokens;
      Feed(t, tokens[..prefixSize], tokens[prefixSize..])
  }

  /** `buildModel`: add the sentences one after another. */
  function BuildModel(t: Trie, prefixSize: nat, sentences: seq<string>): (r: Trie)
    requires prefixSize >= 1 && WellFormed(t, prefixSize)
    ensures WellFormed(r, prefixSize)
    decreases |sentences|
  {
    if sentences == [] then t
    else BuildModel(AddSentence(t, prefixSize, sentences[0]), prefixSize, sentences[1..])
  }

  /** Appending one batch after another is building from their
      concatenation. */
  lemma {:induction false} BuildModelConcat(t: Trie, prefixSize: nat, a: seq<string>, b: seq<string>)
    requires prefixSize >= 1 && WellFormed(t, prefixSize)
    ensures BuildModel(BuildModel(t, prefixSize, a), prefixSize, b) == BuildModel(t, prefixSize, a + b)
    decreases |a|
  {
    if a != [] {
      assert (a + b)[1..] == a[1..] + b;
      BuildModelConcat(AddSentence(t, prefixSize, a[0]), prefixSize, a[1..], b);
    } else {
      assert a + b == b;
    }
  }

  /** The append rule for one sentence, key by key: the list under `key`
      grows by exactly the tokens that follow `key` in the sentence, in
      order; lists under other keys are unchanged. */
  lemma AddSentenceAppendRule(t: Trie, prefixSize: nat, sentence: string, key: seq<string>)
    requires prefixSize >= 1 && WellFormed(t, prefixSize)
    ensures var steps := Steps(SentenceTokens(sentence), prefixSize);
            Get(Flat(AddSentence(t, prefixSize, sentence)), key)
              == Get(Flat(t), key) + SuccessorsOf(steps, key)
  {
    FlatApplyGet(Flat(t), Steps(SentenceTokens(sentence), prefixSize), key);
  }

  /** Building only extends: every existing key stays, and its old list is
      a prefix of its new list. */
  lemma {:induction false} BuildModelGrows(t: Trie, prefixSize: nat, sentences: seq<string>, key: seq<string>)
    requires prefixSize >= 1 && WellFormed(t, prefixSize)
    requires key in Flat(t)
    ensures key in Flat(BuildModel(t, prefixSize, sentences))
    ensures Flat(t)[key] <= Flat(BuildModel(t, prefixSize, sentences))[key]
    decreases |sentences|
  {
    if sentences != [] {
      var t' := AddSentence(t, prefixSize, sentences[0]);
      FlatApplyGet(Flat(t), Steps(SentenceTokens(sentences[0]), prefixSize), key);
      assert Get(Flat(t), key) <= Get(Flat(t'), key);
      BuildModelGrows(t', prefixSize, sentences[1..], key);
    }
  }

  /** Within one sentence the end-of-line marker is the last word recorded
      and no earlier step records it. */
  lemma TerminatorLast(sentence: string, prefixSize: nat)
    ensures var steps := Steps(SentenceTokens(sentence), prefixSize);
            && (|steps| > 0 ==> steps[|steps| - 1].word == Terminator)
            && forall i | 0 <= i < |steps| - 1 :: steps[i].word != Terminator
  {
  }

  /** No prefix contains the end-of-line marker. */
  predicate NoTerminatorKeys(m: Table) {
    forall key | key in m :: Terminator !in key
  }

  /** Every non-terminal successor leads to a stored prefix: sliding the
      window over it never reaches a prefix the model lacks. */
  predicate Closed(m: Table) {
    forall key, w | key in m && w in m[key] && w != Terminator ::
      |key| >= 1 && key[1..] + [w] in m
  }

  /** What a model built from sentences satisfies. */
  predicate Built(t: Trie, prefixSize: nat) {
    && prefixSize >= 1
    && WellFormed(t, prefixSize)
    && Healthy(t)
    && NoTerminatorKeys(Flat(t))
    && Closed(Flat(t))
    && forall key | key in Flat(t) :: |key| == prefixSize
  }

  lemma {:induction false} FeedHealthy(t: Trie, window: seq<string>, rest: seq<string>)
    requires |window| >= 1 && WellFormed(t, |window|) && Healthy(t)
    ensures Healthy(Feed(t, window, rest))
    decreases |rest|
  {
    if rest != [] {
      PushHealthy(t, window, rest[0]);
      FeedHealthy(Push(t, window, rest[0]), window[1..] + [rest[0]], rest[1..]);
    }
  }

  /** A key present after the steps was present before or is the key of
      some step. */
  lemma FlatApplyKeyOrigin(m: Table, steps: seq<Step>, key: seq<string>)
    requires key in FlatApply(m, steps)
    ensures key in m || exists i | 0 <= i < |steps| :: steps[i].key == key
  {
    FlatApplyGet(m, steps, key);
    SuccessorsOfEmpty(steps, key);
  }

  /** A successor present after the steps was present before or is
      recorded by some step. */
  lemma FlatApplyWordOrigin(m: Table, steps: seq<Step>, key: seq<string>, w: string)
    requires key in FlatApply(m, steps) && w in FlatApply(m, steps)[key]
    ensures (key in m && w in m[key]) || exists i | 0 <= i < |steps| :: steps[i] == Step(key, w)
  {
    FlatApplyGet(m, steps, key);
    assert w in Get(m, key) + SuccessorsOf(steps, key);
    if w !in Get(m, key) {
      SuccessorsOfOrigin(steps, key, w);
    }
  }

  lemma StepKeyPresent(m: Table, steps: seq<Step>, i: nat)
    requires i < |steps|
    ensures steps[i].key in FlatApply(m, steps)
  {
    SuccessorsOfComplete(steps, i);
    FlatApplyGet(m, steps, steps[i].key);
  }

  /** Token lists as `SentenceTokens` produces them: the marker last and
      nowhere else. */
  predicate MarkedTokens(tokens: seq<string>) {
    && |tokens| >= 1 && tokens[|tokens| - 1] == Terminator
    && forall j | 0 <= j < |tokens| - 1 :: tokens[j] != Terminator
  }

  lemma StepsKeepKeys(m: Table, tokens: seq<string>, p: nat)
    requires MarkedTokens(tokens) && NoTerminatorKeys(m)
    requires forall key | key in m :: |key| == p
    ensures var m' := FlatApply(m, Steps(tokens, p));
            NoTerminatorKeys(m') && forall key | key in m' :: |key| == p
  {
    var steps := Steps(tokens, p);
    var m' := FlatApply(m, steps);
    forall key | key in m' ensures Terminator !in key && |key| == p {
      FlatApplyKeyOrigin(m, steps, key);
      if key !in m {
        var i :| 0 <= i < |steps| && steps[i].key == key;
        StepKeyShape(tokens, p, i);
      }
    }
  }

  /** Every step key is a window of `p` ordinary words. */
  lemma StepKeyShape(tokens: seq<string>, p: nat, i: nat)
    requires MarkedTokens(tokens) && i < |Steps(tokens, p)|
    ensures |Steps(tokens, p)[i].key| == p && Terminator !in Steps(tokens, p)[i].key
  {
    var key := Steps(tokens, p)[i].key;
    assert key == tokens[i..i + p];
    forall j | 0 <= j < |key| ensures key[j] != Terminator {
      assert key[j] == tokens[i + j];
    }
  }

  lemma StepsKeepClosed(m: Table, tokens: seq<string>, p: nat)
    requires MarkedTokens(tokens) && Closed(m) && p >= 1
    ensures Closed(FlatApply(m, Steps(tokens, p)))
  {
    var m' := FlatApply(m, Steps(tokens, p));
    forall key, w | key in m' && w in m'[key] && w != Terminator
      ensures |key| >= 1 && key[1..] + [w] in m'
    {
      StepsKeepClosedAt(m, tokens, p, key, w);
    }
  }

  lemma StepsKeepClosedAt(m: Table, tokens: seq<string>, p: nat, key: seq<string>, w: string)
    requires MarkedTokens(tokens) && Closed(m) && p >= 1
    requires key in FlatApply(m, Steps(tokens, p)) && w in FlatApply(m, Steps(tokens, p))[key]
    requires w != Terminator
    ensures |key| >= 1 && key[1..] + [w] in FlatApply(m, Steps(tokens, p))
  {
    var steps := Steps(tokens, p);
    FlatApplyWordOrigin(m, steps, key, w);
    if key in m && w in m[key] {
      FlatApplyGet(m, steps, key[1..] + [w]);
    } else {
      var i :| 0 <= i < |steps| && steps[i] == Step(key, w);
      StepsNext(tokens, p, i);
      StepKeyPresent(m, steps, i + 1);
    }
  }

  /** A step that does not record the marker is followed by the step whose
      key is the slid window. */
  lemma StepsNext(tokens: seq<string>, p: nat, i: nat)
    requires MarkedTokens(tokens) && p >= 1
    requires i < |Steps(tokens, p)| && Steps(tokens, p)[i].word != Terminator
    ensures i + 1 < |Steps(tokens, p)|
    ensures var steps := Steps(tokens, p);
            steps[i + 1].key == steps[i].key[1..] + [steps[i].word]
  {
    var steps := Steps(tokens, p);
    assert steps[i].word == tokens[i + p];
    assert i + p < |tokens| - 1;
    assert tokens[i + 1..i + 1 + p] == tokens[i..i + p][1..] + [tokens[i + p]];
  }

  /** Adding a sentence keeps every invariant of a built model. */
  lemma AddSentenceBuilt(t: Trie, prefixSize: nat, sentence: string)
    requires Built(t, prefixSize)
    ensures Built(AddSentence(t, prefixSize, sentence), prefixSize)
  {
    var p := prefixSize;
    var tokens := SentenceTokens(sentence);
    if |tokens| > p {
      assert tokens[..p] + tokens[p..] == tokens;
      FeedHealthy(t, tokens[..p], tokens[p..]);
    }
    StepsKeepKeys(Flat(t), tokens, p);
    StepsKeepClosed(Flat(t), tokens, p);
  }

  /** Building from sentences keeps every invariant of a built model; the
      empty model satisfies them, so every model built from scratch does. */
  lemma {:induction false} BuildModelBuilt(t: Trie, prefixSize: nat, sentences: seq<string>)
    requires Built(t, prefixSize)
    ensures Built(BuildModel(t, prefixSize, sentences), prefixSize)
    decreases |sentences|
  {
    if sentences != [] {
      AddSentenceBuilt(t, prefixSize, sentences[0]);
      BuildModelBuilt(AddSentence(t, prefixSize, sentences[0]), prefixSize, sentences[1..]);
    }
  }

  lemma EmptyBuilt(prefixSize: nat)
    requires prefixSize >= 1
    ensures Built(Empty, prefixSize)
  {
    assert Flat(Empty) == map[];
  }
}
