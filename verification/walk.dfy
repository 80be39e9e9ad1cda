/** Generating one candidate sentence (`_generateSentence`,
    `_getFirstWords`, `_popPrefixes`).  Every random pick is an explicit
    argument: the start window `start` and the successor draws `draws`,
    each constrained to be a member of what the source samples from.  The
    finite draw sequence is the walk's fuel. */
module Walk {
  import opened Wrappers
  import opened Tokens
  import opened Tries
  import Builder

  /** `w.match(/^[A-Z]/)`: the word begins with an ASCII capital. */
  predicate StartsUpper(w: string) {
    |w| > 0 && 'A' <= w[0] <= 'Z'
  }

  /** `_getFirstWords`: the top-level words that may start a sentence. */
  function FirstWords(t: Trie): set<string> {
    if t.Node? then set w | w in t.children && StartsUpper(w) else {}
  }

  /** `_.keys(modelRef)` for the level reached by `path`; empty when that
      is not an object. */
  function KeysAt(t: Trie, path: seq<string>): set<string> {
    match Fetch(t, path)
    case Some(Node(c)) => c.Keys
    case _ => {}
  }

  /** A partial window `_popPrefixes` can build: a first word, then at each
      later position a key of the level the earlier words lead to. */
  predicate ValidPartial(t: Trie, prefixes: seq<string>) {
    && |prefixes| >= 1
    && prefixes[0] in FirstWords(t)
    && forall i | 1 <= i < |prefixes| :: prefixes[i] in KeysAt(t, prefixes[..i])
  }

  /** The start windows `_popPrefixes` can return. */
  predicate ValidStart(t: Trie, prefixSize: nat, start: seq<string>) {
    prefixSize >= 1 && |start| == prefixSize && ValidPartial(t, start)
  }

  lemma {:induction false} FetchAppend(t: Trie, a: seq<string>, b: seq<string>)
    ensures Fetch(t, a + b) == (if Fetch(t, a).Some? then Fetch(Fetch(t, a).value, b) else None)
    decreases |a|
  {
    if a == [] {
      assert a + b == b;
    } else {
      assert (a + b)[0] == a[0] && (a + b)[1..] == a[1..] + b;
      if t.Node? && a[0] in t.children {
        FetchAppend(t.children[a[0]], a[1..], b);
      }
    }
  }

  lemma {:induction false} FetchWellFormed(t: Trie, depth: nat, path: seq<string>)
    requires WellFormed(t, depth) && Fetch(t, path).Some?
    ensures |path| <= depth && WellFormed(Fetch(t, path).value, depth - |path|)
    decreases |path|
  {
    if path != [] {
      FetchWellFormed(t.children[path[0]], depth - 1, path[1..]);
    }
  }

  /** A full path resolves one level at a time: each of its proper prefixes
      reaches an object that holds the next word. */
  lemma LookupPrefixes(t: Trie, key: seq<string>, i: nat)
    requires Lookup(t, key).Some? && i < |key|
    ensures Fetch(t, key[..i]).Some? && Fetch(t, key[..i]).value.Node?
    ensures key[i] in Fetch(t, key[..i]).value.children
  {
    assert key == key[..i] + key[i..];
    FetchAppend(t, key[..i], key[i..]);
  }

  /** The start windows are exactly the stored prefixes whose first word is
      capitalised. */
  lemma StartWindows(t: Trie, prefixSize: nat, start: seq<string>)
    requires prefixSize >= 1 && WellFormed(t, prefixSize)
    ensures ValidStart(t, prefixSize, start)
        <==> start in Flat(t) && StartsUpper(start[0])
  {
    if ValidStart(t, prefixSize, start) {
      var p := prefixSize;
      var last := p - 1;
      if last == 0 {
        assert Fetch(t, start) == Fetch(t.children[start[0]], []);
        FetchWellFormed(t, p, start);
      } else {
        var n := Fetch(t, start[..last]).value;
        assert start == start[..last] + [start[last]];
        FetchAppend(t, start[..last], [start[last]]);
        FetchWellFormed(t, p, start);
      }
    }
    if start in Flat(t) && StartsUpper(start[0]) {
      FetchWellFormed(t, prefixSize, start);
      LookupPrefixes(t, start, 0);
      forall i | 1 <= i < |start| ensures start[i] in KeysAt(t, start[..i]) {
        LookupPrefixes(t, start, i);
      }
    }
  }

  /** In a built model the descent of `_popPrefixes` never meets an empty
      level: the next word can always be chosen. */
  lemma PopPrefixesNeverStuck(t: Trie, prefixSize: nat, prefixes: seq<string>)
    requires Builder.Built(t, prefixSize)
    requires ValidPartial(t, prefixes) && |prefixes| < prefixSize
    ensures KeysAt(t, prefixes) != {}
  {
    var last := |prefixes| - 1;
    if last == 0 {
      assert Fetch(t, prefixes) == Fetch(t.children[prefixes[0]], []);
    } else {
      assert prefixes == prefixes[..last] + [prefixes[last]];
      FetchAppend(t, prefixes[..last], [prefixes[last]]);
    }
    FetchWellFormed(t, prefixSize, prefixes);
    HealthyNoDeadEnd(t, prefixes);
  }

  /** The draws the walk can make from `window` on: each is a member of the
      successor list of the window it is drawn for; drawing stops at the
      end-of-line marker. */
  predicate ValidDraws(t: Trie, window: seq<string>, draws: seq<string>)
    decreases |draws|
  {
    && |window| >= 1
    && (draws != [] ==>
          && Lookup(t, window).Some?
          && draws[0] in Lookup(t, window).value
          && (draws[0] != Terminator ==> ValidDraws(t, window[1..] + [draws[0]], draws[1..])))
  }

  /** The flush loop of `_generateSentence`, which moves window words to
      the sentence: its bound is the window's current length, which every
      move shortens, so only the first half (rounded up) is emitted. */
  function Flush(prefixes: seq<string>, i: nat): (flushed: seq<string>)
    ensures |flushed| == if i < |prefixes| then (|prefixes| - i + 1) / 2 else 0
    ensures flushed == prefixes[..|flushed|]
    decreases |prefixes|
  {
    if i < |prefixes| then [prefixes[0]] + Flush(prefixes[1..], i + 1) else []
  }

  /** The index of the first end-of-line marker among the draws, or the
      number of draws when there is none. */
  function FirstTerminator(draws: seq<string>): (n: nat)
    ensures n <= |draws|
    ensures forall j | 0 <= j < n :: draws[j] != Terminator
    ensures n < |draws| ==> draws[n] == Terminator
  {
    if draws == [] || draws[0] == Terminator then 0 else 1 + FirstTerminator(draws[1..])
  }

  /** The unbounded loop of `_generateSentence`: draw a successor of
      the window; on the marker flush the window, otherwise emit the oldest
      window word and slide the drawn word in.  `None` when the draws run
      out first.  The sentence is the start window followed by the
      non-terminal draws, cut after `n + ceil(prefixSize/2)` words where `n`
      is the number of non-terminal draws. */
  function Walk(t: Trie, window: seq<string>, draws: seq<string>): (sentence: Option<seq<string>>)
    requires ValidDraws(t, window, draws)
    ensures sentence.Some? <==> FirstTerminator(draws) < |draws|
    ensures sentence.Some? ==>
              sentence.value == (window + draws)[..FirstTerminator(draws) + (|window| + 1) / 2]
    decreases |draws|
  {
    if draws == [] then None
    else
      var next := draws[0];
      assert next in Lookup(t, window).value;
      if next == Terminator then
        PrefixOfAppend(window, draws, (|window| + 1) / 2);
        Some(Flush(window, 0))
      else
        var window' := window[1..] + [next];
        assert window' + draws[1..] == (window + draws)[1..];
        match Walk(t, window', draws[1..])
        case None => None
        case Some(rest) =>
          HeadPrefix(window + draws, FirstTerminator(draws[1..]) + (|window| + 1) / 2);
          Some([window[0]] + rest)
  }

  lemma PrefixOfAppend(a: seq<string>, b: seq<string>, k: nat)
    requires k <= |a|
    ensures (a + b)[..k] == a[..k]
  {
  }

  lemma HeadPrefix(s: seq<string>, k: nat)
    requires k < |s|
    ensures [s[0]] + s[1..][..k] == s[..k + 1]
  {
  }

  /** `_generateSentence`: walk from a start window and join the words with
      single spaces. */
  function GenerateCandidate(t: Trie, prefixSize: nat, start: seq<string>, draws: seq<string>): (s: Option<string>)
    requires ValidStart(t, prefixSize, start) && ValidDraws(t, start, draws)
    ensures s.Some? <==> FirstTerminator(draws) < |draws|
    ensures s.Some? ==>
              s.value == Join((start + draws)[..FirstTerminator(draws) + (prefixSize + 1) / 2])
  {
    match Walk(t, start, draws)
    case None => None
    case Some(words) => Some(Join(words))
  }

  /** A finished walk starts with the first word of its start window, which
      begins with a capital, so the sentence is never empty and its first
      word never is. */
  lemma WalkFirstWord(t: Trie, prefixSize: nat, start: seq<string>, draws: seq<string>)
    requires ValidStart(t, prefixSize, start) && ValidDraws(t, start, draws)
    requires Walk(t, start, draws).Some?
    ensures |Walk(t, start, draws).value| >= 1
    ensures Walk(t, start, draws).value[0] == start[0] && StartsUpper(start[0])
  {
    var n := FirstTerminator(draws) + (prefixSize + 1) / 2;
    assert Walk(t, start, draws).value == (start + draws)[..n];
  }

  /** Every window the walk reaches in a built model is a stored prefix, so
      the draws are constrained by membership alone. */
  lemma {:induction false} BuiltDrawsValid(t: Trie, prefixSize: nat, window: seq<string>, draws: seq<string>)
    requires Builder.Built(t, prefixSize) && window in Flat(t)
    requires DrawsAreSuccessors(Flat(t), window, draws)
    ensures ValidDraws(t, window, draws)
    decreases |draws|
  {
    if draws != [] && draws[0] != Terminator {
      BuiltDrawsValid(t, prefixSize, window[1..] + [draws[0]], draws[1..]);
    }
  }

  /** On a flat table: each draw is a successor of the window it is drawn
      for, as long as that window is stored. */
  predicate DrawsAreSuccessors(m: Table, window: seq<string>, draws: seq<string>)
    decreases |draws|
  {
    draws != [] && |window| >= 1 && window in m ==>
      && draws[0] in m[window]
      && (draws[0] != Terminator ==> DrawsAreSuccessors(m, window[1..] + [draws[0]], draws[1..]))
  }

  /** A sentence generated from a model whose prefixes never contain the
      marker (every built model) never contains it either,
      and has `n + ceil(prefixSize/2)` words for `n` non-terminal draws. */
  lemma WalkWords(t: Trie, prefixSize: nat, start: seq<string>, draws: seq<string>)
    requires prefixSize >= 1 && WellFormed(t, prefixSize) && Builder.NoTerminatorKeys(Flat(t))
    requires ValidStart(t, prefixSize, start) && ValidDraws(t, start, draws)
    requires FirstTerminator(draws) < |draws|
    ensures Terminator !in Walk(t, start, draws).value
    ensures |Walk(t, start, draws).value| == FirstTerminator(draws) + (prefixSize + 1) / 2
  {
    StartWindows(t, prefixSize, start);
    assert Terminator !in start;
    var words := Walk(t, start, draws).value;
    var n := FirstTerminator(draws);
    var stream := start + draws;
    assert words == stream[..n + (prefixSize + 1) / 2];
    forall j | 0 <= j < |words| ensures words[j] != Terminator {
      assert words[j] == stream[j];
      if j >= |start| {
        assert stream[j] == draws[j - |start|];
      } else {
        assert stream[j] == start[j];
      }
    }
  }
}
