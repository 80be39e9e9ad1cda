/** Word tokens: the whitespace split applied to each training sentence
    (`sentence.split(/\s+/)`), the end-of-sentence marker, and the
    single-space join that turns a generated word list into a string. */
module Tokens {

  /** The end-of-line marker pushed after the words of every sentence. */
  const Terminator: string := "\n"

  /** The characters of JavaScript's `\s` class. */
  predicate IsSpace(c: char) {
    || c == ' ' || c == '\t' || c == '\n' || c == '\r'
    || c == '\U{000B}' || c == '\U{000C}' || c == '\U{00A0}' || c == '\U{1680}'
    || ('\U{2000}' <= c <= '\U{200A}')
    || c == '\U{2028}' || c == '\U{2029}' || c == '\U{202F}' || c == '\U{205F}'
    || c == '\U{3000}' || c == '\U{FEFF}'
  }

  /** A word: no whitespace character inside. */
  predicate NoSpace(w: string) {
    forall i | 0 <= i < |w| :: !IsSpace(w[i])
  }

  /** Index of the first whitespace character of `s` (|s| when there is none). */
  function FirstSpace(s: string): (i: nat)
    ensures i <= |s|
  {
    if s == [] || IsSpace(s[0]) then 0 else 1 + FirstSpace(s[1..])
  }

  /** Everything before the first whitespace character is a word. */
  lemma {:induction false} FirstSpaceSpec(s: string)
    ensures NoSpace(s[..FirstSpace(s)])
    ensures FirstSpace(s) < |s| ==> IsSpace(s[FirstSpace(s)])
    decreases |s|
  {
    if s != [] && !IsSpace(s[0]) {
      FirstSpaceSpec(s[1..]);
      var i := FirstSpace(s);
      forall k | 0 <= k < i ensures !IsSpace(s[..i][k]) {
        if k > 0 {
          assert s[..i][k] == s[1..][..i - 1][k - 1];
        }
      }
    }
  }

  /** Length of the run of whitespace that starts `s`. */
  function SpaceRun(s: string): (n: nat)
    ensures n <= |s|
  {
    if s != [] && IsSpace(s[0]) then 1 + SpaceRun(s[1..]) else 0
  }

  /** The run is maximal: all whitespace, and not followed by whitespace. */
  lemma {:induction false} SpaceRunSpec(s: string)
    ensures forall i | 0 <= i < SpaceRun(s) :: IsSpace(s[i])
    ensures SpaceRun(s) < |s| ==> !IsSpace(s[SpaceRun(s)])
    decreases |s|
  {
    if s != [] && IsSpace(s[0]) {
      SpaceRunSpec(s[1..]);
      forall i | 1 <= i < SpaceRun(s) ensures IsSpace(s[i]) {
        assert s[i] == s[1..][i - 1];
      }
    }
  }

  /** `s.split(/\s+/)`: the pieces between maximal whitespace runs, so a
      leading or trailing run yields an empty first or last piece, and the
      empty string splits into `[""]`. */
  function Split(s: string): (words: seq<string>)
    ensures |words| >= 1
    ensures forall k | 0 <= k < |words| :: NoSpace(words[k])
    ensures Concat(words) == RemoveSpaces(s)
  {
    PiecesSound(s);
    Pieces(s)
  }

  /** The cutting recursion behind `Split`: the text up to the first
      whitespace character, then the pieces after the whitespace run that
      starts there. */
  function Pieces(s: string): seq<string>
    decreases |s|
  {
    var i := FirstSpace(s);
    if i == |s| then [s]
    else [s[..i]] + Pieces(s[i + SpaceRun(s[i..])..])
  }

  lemma PiecesSound(s: string)
    ensures |Pieces(s)| >= 1
    ensures forall k | 0 <= k < |Pieces(s)| :: NoSpace(Pieces(s)[k])
    ensures Concat(Pieces(s)) == RemoveSpaces(s)
  {
    PiecesWords(s);
    PiecesConcat(s);
  }

  lemma {:induction false} PiecesWords(s: string)
    ensures |Pieces(s)| >= 1
    ensures forall k | 0 <= k < |Pieces(s)| :: NoSpace(Pieces(s)[k])
    decreases |s|
  {
    var i := FirstSpace(s);
    FirstSpaceSpec(s);
    if i == |s| {
      assert s[..i] == s;
    } else {
      var j := i + SpaceRun(s[i..]);
      PiecesWords(s[j..]);
      AllWordsCons(s[..i], Pieces(s[j..]));
      assert Pieces(s) == [s[..i]] + Pieces(s[j..]);
    }
  }

  lemma AllWordsCons(w: string, rest: seq<string>)
    requires NoSpace(w)
    requires forall k | 0 <= k < |rest| :: NoSpace(rest[k])
    ensures forall k | 0 <= k < |[w] + rest| :: NoSpace(([w] + rest)[k])
  {
    forall k | 0 <= k < |[w] + rest| ensures NoSpace(([w] + rest)[k]) {
      if k > 0 {
        assert ([w] + rest)[k] == rest[k - 1];
      }
    }
  }

  lemma {:induction false} PiecesConcat(s: string)
    ensures |Pieces(s)| >= 1
    ensures Concat(Pieces(s)) == RemoveSpaces(s)
    decreases |s|
  {
    var i := FirstSpace(s);
    FirstSpaceSpec(s);
    if i == |s| {
      assert s[..i] == s;
      NoSpaceRemove(s);
    } else {
      var j := i + SpaceRun(s[i..]);
      var rest := Pieces(s[j..]);
      PiecesConcat(s[j..]);
      SpaceRunSpec(s[i..]);
      forall k | i <= k < j ensures IsSpace(s[k]) {
        assert s[k] == s[i..][k - i];
      }
      RemoveSpacesSplit(s, i, j);
      assert Pieces(s) == [s[..i]] + rest;
      assert Pieces(s)[1..] == rest;
    }
  }

  /** A separator `split` removes: a non-empty run of whitespace. */
  predicate SpaceRunOnly(r: string) {
    |r| > 0 && forall i | 0 <= i < |r| :: IsSpace(r[i])
  }

  /** The words with `seps[k]` between `words[k]` and `words[k + 1]`. */
  function Weave(words: seq<string>, seps: seq<string>): string
    requires |words| == |seps| + 1
    decreases |seps|
  {
    if seps == [] then words[0] else words[0] + seps[0] + Weave(words[1..], seps[1..])
  }

  /** The whitespace runs that `Split` cuts at, in order. */
  function Separators(s: string): seq<string>
    decreases |s|
  {
    var i := FirstSpace(s);
    if i == |s| then [] else
      var j := i + SpaceRun(s[i..]);
      [s[i..j]] + Separators(s[j..])
  }

  /** Where the cuts fall: the sentence is its tokens woven with non-empty
      whitespace runs, and only the first and the last token can be empty. */
  lemma SplitWeave(s: string) returns (seps: seq<string>)
    ensures |seps| + 1 == |Split(s)|
    ensures forall k | 0 <= k < |seps| :: SpaceRunOnly(seps[k])
    ensures forall k | 0 < k < |Split(s)| - 1 :: Split(s)[k] != []
    ensures s == Weave(Split(s), seps)
  {
    seps := PiecesWeaveSeps(s);
    assert Split(s) == Pieces(s);
  }

  /** The converse: weaving whitespace-free words, none empty but possibly
      the first and the last, with non-empty whitespace runs and splitting
      gives the words back.  So the cuts are exactly the whitespace runs. */
  lemma WeaveSplit(words: seq<string>, seps: seq<string>)
    requires |words| == |seps| + 1
    requires forall k | 0 <= k < |words| :: NoSpace(words[k])
    requires forall k | 0 < k < |words| - 1 :: words[k] != []
    requires forall k | 0 <= k < |seps| :: SpaceRunOnly(seps[k])
    ensures Split(Weave(words, seps)) == words
  {
    WeavePieces(words, seps);
    assert Split(Weave(words, seps)) == Pieces(Weave(words, seps));
  }

  /** Leading whitespace is exactly what makes the first token empty, and
      trailing whitespace exactly what makes the last token empty. */
  lemma SplitEdges(s: string)
    requires s != []
    ensures IsSpace(s[0]) <==> Split(s)[0] == []
    ensures IsSpace(s[|s| - 1]) <==> Split(s)[|Split(s)| - 1] == []
  {
    PiecesEdges(s);
    assert Split(s) == Pieces(s);
  }

  lemma PiecesWeaveSeps(s: string) returns (seps: seq<string>)
    ensures |seps| + 1 == |Pieces(s)|
    ensures forall k | 0 <= k < |seps| :: SpaceRunOnly(seps[k])
    ensures forall k | 0 < k < |Pieces(s)| - 1 :: Pieces(s)[k] != []
    ensures s == Weave(Pieces(s), seps)
  {
    seps := Separators(s);
    SeparatorsCount(s);
    SeparatorsSpace(s);
    PiecesInner(s);
    PiecesIsWeave(s);
  }

  /** One cut of `Pieces`: the first word, the whitespace run after it, and
      the split of the remainder. */
  lemma PiecesStep(s: string) returns (j: nat)
    requires FirstSpace(s) < |s|
    ensures FirstSpace(s) < j <= |s|
    ensures SpaceRunOnly(s[FirstSpace(s)..j])
    ensures j < |s| ==> !IsSpace(s[j])
    ensures Pieces(s) == [s[..FirstSpace(s)]] + Pieces(s[j..])
    ensures Separators(s) == [s[FirstSpace(s)..j]] + Separators(s[j..])
  {
    var i := FirstSpace(s);
    var n := SpaceRun(s[i..]);
    j := i + n;
    FirstSpaceSpec(s);
    SpaceRunSpec(s[i..]);
    PiecesUnfold(s, i, j);
    SeparatorsUnfold(s, i, j);
    assert s[i..][0] == s[i];
    assert s[i..j] == s[i..][..n];
    if j < |s| {
      assert s[j] == s[i..][n];
    }
  }

  lemma PiecesUnfold(s: string, i: nat, j: nat)
    requires i == FirstSpace(s) < |s| && j == i + SpaceRun(s[i..])
    ensures Pieces(s) == [s[..i]] + Pieces(s[j..])
  {
  }

  lemma SeparatorsUnfold(s: string, i: nat, j: nat)
    requires i == FirstSpace(s) < |s| && j == i + SpaceRun(s[i..])
    ensures Separators(s) == [s[i..j]] + Separators(s[j..])
  {
  }

  lemma {:induction false} SeparatorsCount(s: string)
    ensures |Separators(s)| + 1 == |Pieces(s)|
    decreases |s|
  {
    if FirstSpace(s) < |s| {
      var j := PiecesStep(s);
      SeparatorsCount(s[j..]);
    }
  }

  lemma {:induction false} SeparatorsSpace(s: string)
    ensures forall k | 0 <= k < |Separators(s)| :: SpaceRunOnly(Separators(s)[k])
    decreases |s|
  {
    if FirstSpace(s) < |s| {
      var j := PiecesStep(s);
      var tail := Separators(s[j..]);
      SeparatorsSpace(s[j..]);
      forall k | 0 < k < |Separators(s)| ensures SpaceRunOnly(Separators(s)[k]) {
        assert Separators(s)[k] == tail[k - 1];
      }
    }
  }

  lemma {:induction false} PiecesInner(s: string)
    ensures forall k | 0 < k < |Pieces(s)| - 1 :: Pieces(s)[k] != []
    decreases |s|
  {
    if FirstSpace(s) < |s| {
      var j := PiecesStep(s);
      var words, rest := Pieces(s), Pieces(s[j..]);
      PiecesInner(s[j..]);
      if |rest| >= 2 {
        PiecesHeadNonEmpty(s[j..]);
      }
      forall k | 1 < k < |words| - 1 ensures words[k] != [] {
        assert words[k] == rest[k - 1];
      }
    }
  }

  lemma {:induction false} PiecesIsWeave(s: string)
    ensures |Separators(s)| + 1 == |Pieces(s)|
    ensures s == Weave(Pieces(s), Separators(s))
    decreases |s|
  {
    SeparatorsCount(s);
    var i := FirstSpace(s);
    if i < |s| {
      var j := PiecesStep(s);
      PiecesIsWeave(s[j..]);
      assert Pieces(s)[1..] == Pieces(s[j..]) && Separators(s)[1..] == Separators(s[j..]);
      ThreeParts(s, i, j);
    }
  }

  lemma ThreeParts(s: string, i: nat, j: nat)
    requires i <= j <= |s|
    ensures s == s[..i] + s[i..j] + s[j..]
  {
  }

  lemma PiecesHeadNonEmpty(t: string)
    requires t != [] && !IsSpace(t[0])
    ensures Pieces(t)[0] != []
  {
    assert FirstSpace(t) >= 1;
  }

  lemma {:induction false} WeavePieces(words: seq<string>, seps: seq<string>)
    requires |words| == |seps| + 1
    requires forall k | 0 <= k < |words| :: NoSpace(words[k])
    requires forall k | 0 < k < |words| - 1 :: words[k] != []
    requires forall k | 0 <= k < |seps| :: SpaceRunOnly(seps[k])
    ensures Pieces(Weave(words, seps)) == words
    decreases |seps|
  {
    if seps == [] {
      SplitWord(words[0]);
      assert words == [words[0]];
    } else {
      var tail := Weave(words[1..], seps[1..]);
      assert Weave(words, seps) == words[0] + seps[0] + tail;
      WeaveTail(words, seps);
      WeaveStart(words[1..], seps[1..]);
      PiecesSeparated(words[0], seps[0], tail);
      WeavePieces(words[1..], seps[1..]);
      assert [words[0]] + words[1..] == words;
    }
  }

  /** The conditions of `WeaveSplit` carry over to the weave after its
      first word and separator. */
  lemma WeaveTail(words: seq<string>, seps: seq<string>)
    requires |words| == |seps| + 1 && seps != []
    requires forall k | 0 <= k < |words| :: NoSpace(words[k])
    requires forall k | 0 < k < |words| - 1 :: words[k] != []
    requires forall k | 0 <= k < |seps| :: SpaceRunOnly(seps[k])
    ensures |words[1..]| == |seps[1..]| + 1
    ensures forall k | 0 <= k < |words[1..]| :: NoSpace(words[1..][k])
    ensures forall k | 0 < k < |words[1..]| - 1 :: words[1..][k] != []
    ensures forall k | 0 <= k < |seps[1..]| :: SpaceRunOnly(seps[1..][k])
    ensures NoSpace(words[0]) && SpaceRunOnly(seps[0])
    ensures seps[1..] != [] ==> words[1..][0] != []
  {
    assert NoSpace(words[0]);
  }

  /** A weave whose first word is empty only when it is the whole weave
      does not start with whitespace. */
  lemma WeaveStart(words: seq<string>, seps: seq<string>)
    requires |words| == |seps| + 1 && NoSpace(words[0])
    requires seps != [] ==> words[0] != []
    ensures Weave(words, seps) == [] || !IsSpace(Weave(words, seps)[0])
  {
    if seps != [] {
      assert Weave(words, seps)[0] == words[0][0];
    }
  }

  lemma PiecesSeparated(w: string, sep: string, tail: string)
    requires NoSpace(w) && SpaceRunOnly(sep)
    requires tail == [] || !IsSpace(tail[0])
    ensures Pieces(w + sep + tail) == [w] + Pieces(tail)
  {
    var s := w + sep + tail;
    assert s == w + (sep + tail);
    FirstSpaceOfWord(w, sep + tail);
    assert s[|w|..] == sep + tail;
    SpaceRunOf(sep, tail);
    assert s[|w| + |sep|..] == tail;
    assert s[..|w|] == w;
    PiecesUnfold(s, |w|, |w| + |sep|);
  }

  lemma {:induction false} SpaceRunOf(sep: string, tail: string)
    requires forall i | 0 <= i < |sep| :: IsSpace(sep[i])
    requires tail == [] || !IsSpace(tail[0])
    ensures SpaceRun(sep + tail) == |sep|
    decreases |sep|
  {
    if sep == [] {
      assert sep + tail == tail;
    } else {
      assert (sep + tail)[1..] == sep[1..] + tail;
      SpaceRunOf(sep[1..], tail);
    }
  }

  lemma PiecesEdges(s: string)
    requires s != []
    ensures IsSpace(s[0]) <==> Pieces(s)[0] == []
    ensures IsSpace(s[|s| - 1]) <==> Pieces(s)[|Pieces(s)| - 1] == []
  {
    PiecesHead(s);
    PiecesLast(s);
  }

  /** The first token is everything before the first whitespace character. */
  lemma PiecesHead(s: string)
    ensures Pieces(s)[0] == s[..FirstSpace(s)]
  {
  }

  lemma {:induction false} PiecesLast(s: string)
    requires s != []
    ensures IsSpace(s[|s| - 1]) <==> Pieces(s)[|Pieces(s)| - 1] == []
    decreases |s|
  {
    var i := FirstSpace(s);
    FirstSpaceSpec(s);
    if i == |s| {
      assert Pieces(s) == [s];
      assert s[..i] == s;
    } else {
      var j := PiecesStep(s);
      if j < |s| {
        PiecesLast(s[j..]);
        assert s[j..][|s[j..]| - 1] == s[|s| - 1];
      } else {
        assert Pieces(s[j..]) == Pieces([]) == [[]];
        assert s[i..j][j - i - 1] == s[|s| - 1];
      }
    }
  }

  /** The characters of `s` that are not whitespace, in order. */
  function RemoveSpaces(s: string): string {
    if s == [] then []
    else (if IsSpace(s[0]) then [] else [s[0]]) + RemoveSpaces(s[1..])
  }

  /** All words one after another, without separators. */
  function Concat(words: seq<string>): string {
    if words == [] then [] else words[0] + Concat(words[1..])
  }

  /** `words.join(" ")`. */
  function Join(words: seq<string>): string {
    if words == [] then []
    else if |words| == 1 then words[0]
    else words[0] + " " + Join(words[1..])
  }

  /** Joining two non-empty runs of words is joining each and putting one
      space between them. */
  lemma {:induction false} JoinAppend(a: seq<string>, b: seq<string>)
    requires a != [] && b != []
    ensures Join(a + b) == Join(a) + " " + Join(b)
    decreases |a|
  {
    assert (a + b)[1..] == a[1..] + b;
    if |a| > 1 {
      JoinAppend(a[1..], b);
      assert a[0] + " " + (Join(a[1..]) + " " + Join(b)) == (a[0] + " " + Join(a[1..])) + " " + Join(b);
    }
  }

  lemma {:induction false} NoSpaceRemove(s: string)
    requires NoSpace(s)
    ensures RemoveSpaces(s) == s
    decreases |s|
  {
    if s != [] {
      NoSpaceRemove(s[1..]);
    }
  }

  lemma {:induction false} RemoveSpacesAppend(a: string, b: string)
    ensures RemoveSpaces(a + b) == RemoveSpaces(a) + RemoveSpaces(b)
    decreases |a|
  {
    if a == [] {
      assert a + b == b;
    } else {
      assert (a + b)[0] == a[0];
      assert (a + b)[1..] == a[1..] + b;
      RemoveSpacesAppend(a[1..], b);
    }
  }

  lemma {:induction false} AllSpaceRemove(s: string)
    requires forall i | 0 <= i < |s| :: IsSpace(s[i])
    ensures RemoveSpaces(s) == []
    decreases |s|
  {
    if s != [] {
      AllSpaceRemove(s[1..]);
    }
  }

  lemma {:induction false} RemoveSpacesSplit(s: string, i: nat, j: nat)
    requires i <= j <= |s|
    requires NoSpace(s[..i])
    requires forall k | i <= k < j :: IsSpace(s[k])
    ensures RemoveSpaces(s) == s[..i] + RemoveSpaces(s[j..])
  {
    var a, b, c := s[..i], s[i..j], s[j..];
    assert s == a + (b + c);
    RemoveSpacesAppend(a, b + c);
    RemoveSpacesAppend(b, c);
    NoSpaceRemove(a);
    SpaceSlice(s, i, j);
    AllSpaceRemove(b);
  }

  lemma SpaceSlice(s: string, i: nat, j: nat)
    requires i <= j <= |s|
    requires forall k | i <= k < j :: IsSpace(s[k])
    ensures forall k | 0 <= k < j - i :: IsSpace(s[i..j][k])
  {
    forall k | 0 <= k < j - i ensures IsSpace(s[i..j][k]) {
      assert s[i..j][k] == s[i + k];
    }
  }

  /** Joining non-empty words with single spaces and splitting the result
      again gives the words back. */
  lemma {:induction false} SplitJoin(words: seq<string>)
    requires |words| >= 1
    requires forall k | 0 <= k < |words| :: |words[k]| > 0 && NoSpace(words[k])
    ensures Split(Join(words)) == words
    decreases |words|
  {
    if |words| == 1 {
      SplitWord(words[0]);
    } else {
      JoinStartsWithWord(words[1..]);
      SplitCons(words[0], Join(words[1..]));
      SplitJoin(words[1..]);
      assert [words[0]] + words[1..] == words;
    }
  }

  lemma SplitWord(w: string)
    requires NoSpace(w)
    ensures Split(w) == [w]
  {
    assert Split(w) == Pieces(w);
    FirstSpaceOfWord(w, []);
    assert w + [] == w;
  }

  lemma SplitCons(w: string, tail: string)
    requires NoSpace(w)
    requires |tail| > 0 && !IsSpace(tail[0])
    ensures Split(w + " " + tail) == [w] + Split(tail)
  {
    PiecesSeparated(w, " ", tail);
    assert Split(w + " " + tail) == Pieces(w + " " + tail);
    assert Split(tail) == Pieces(tail);
  }

  lemma {:induction false} FirstSpaceOfWord(w: string, rest: string)
    requires NoSpace(w)
    requires rest == [] || IsSpace(rest[0])
    ensures FirstSpace(w + rest) == |w|
    decreases |w|
  {
    if w != [] {
      assert (w + rest)[1..] == w[1..] + rest;
      FirstSpaceOfWord(w[1..], rest);
    } else {
      assert w + rest == rest;
    }
  }

  lemma {:induction false} JoinStartsWithWord(words: seq<string>)
    requires |words| >= 1 && |words[0]| > 0
    ensures |Join(words)| > 0 && Join(words)[0] == words[0][0]
  {
  }

  /** When the first word is non-empty, the joined string has at least one
      character per word: one for the first word and one separator for each
      later word.  So a bound on its length also bounds the word count, even
      when later words are empty. */
  lemma JoinLength(words: seq<string>)
    requires words == [] || |words[0]| > 0
    ensures |words| <= |Join(words)|
  {
    if |words| > 1 {
      JoinSeparators(words[1..]);
    }
  }

  /** Any join has at least one separator per word after the first. */
  lemma {:induction false} JoinSeparators(words: seq<string>)
    requires words != []
    ensures |words| <= |Join(words)| + 1
    decreases |words|
  {
    if |words| > 1 {
      JoinSeparators(words[1..]);
    }
  }
}
