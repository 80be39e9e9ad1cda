/** The Markov model: a nested object of depth `prefixSize`.  Each of the
    first `prefixSize` levels maps one word of a prefix to the next level;
    below the last word sits the array of successor words, duplicates kept
    (frequency is represented by repetition). */
module Tries {
  import opened Wrappers

  /** A JavaScript object of words (`Node`) or an array of successor words
      (`Successors`). */
  datatype Trie = Node(children: map<string, Trie>) | Successors(words: seq<string>)

  /** The empty model `{}`; the same value serves at every depth. */
  const Empty: Trie := Node(map[])

  /** Every path of `depth` words from `t` ends in a successor list, and no
      shorter path does. */
  predicate WellFormed(t: Trie, depth: nat)
    decreases t
  {
    if depth == 0 then t.Successors?
    else t.Node? && forall k | k in t.children :: WellFormed(t.children[k], depth - 1)
  }

  /** `_deepObjectFetch`: follow `path` key by key; `None` where JavaScript
      would read `undefined` or fail. */
  function Fetch(t: Trie, path: seq<string>): Option<Trie>
    decreases |path|
  {
    if path == [] then Some(t)
    else if t.Node? && path[0] in t.children then Fetch(t.children[path[0]], path[1..])
    else None
  }

  /** The successor list stored under the full prefix `key`, if any. */
  function Lookup(t: Trie, key: seq<string>): Option<seq<string>> {
    match Fetch(t, key)
    case Some(Successors(ws)) => Some(ws)
    case _ => None
  }

  /** The paths from `t` that end in a successor list. */
  function Paths(t: Trie): set<seq<string>>
    decreases t
  {
    match t
    case Successors(_) => {[]}
    case Node(c) => set k, p | k in c && p in Paths(c[k]) :: [k] + p
  }

  lemma {:induction false} PathsAreLookups(t: Trie, p: seq<string>)
    ensures p in Paths(t) <==> Lookup(t, p).Some?
    decreases t
  {
    match t
    case Successors(_) =>
    case Node(c) =>
      if p != [] && p[0] in c {
        PathsAreLookups(c[p[0]], p[1..]);
        assert p == [p[0]] + p[1..];
      }
      if p in Paths(t) {
        var k, q :| k in c && q in Paths(c[k]) && p == [k] + q;
        assert p[0] == k && p[1..] == q;
        PathsAreLookups(c[k], q);
      }
  }

  /** The abstraction of the nested model as one flat table from
      `prefixSize`-word prefixes to successor lists. */
  function Flat(t: Trie): (m: map<seq<string>, seq<string>>)
    ensures forall p :: p in m <==> Lookup(t, p).Some?
    ensures forall p | p in m :: Lookup(t, p) == Some(m[p])
  {
    forall p ensures p in Paths(t) <==> Lookup(t, p).Some? {
      PathsAreLookups(t, p);
    }
    map p | p in Paths(t) :: Lookup(t, p).value
  }

  /** The level `_deepObjectDefaultAssign` descends into under `keys[0]`:
      the existing entry, or the one it creates — `value` at the last key,
      `{}` above it. */
  function Descend(t: Trie, keys: seq<string>, value: seq<string>): (child: Trie)
    requires |keys| >= 1 && WellFormed(t, |keys|)
    ensures WellFormed(child, |keys| - 1)
  {
    if keys[0] in t.children then t.children[keys[0]]
    else if |keys| == 1 then Successors(value)
    else Empty
  }

  /** `_deepObjectDefaultAssign(model, keys, value)`: create every missing
      level along `keys` and, when the last key is missing, store `value`
      there.  Nothing that already exists is replaced. */
  function DefaultAssign(t: Trie, keys: seq<string>, value: seq<string>): (r: Trie)
    requires WellFormed(t, |keys|)
    ensures WellFormed(r, |keys|)
    ensures Lookup(r, keys) == Some(Lookup(t, keys).GetOr(value))
    ensures forall p | p != keys :: Lookup(r, p) == Lookup(t, p)
    decreases |keys|
  {
    if keys == [] then t
    else
      var child := Descend(t, keys, value);
      var child' := DefaultAssign(child, keys[1..], value);
      var r := Node(t.children[keys[0] := child']);
      forall p ensures Lookup(r, p) == (if p != [] && p[0] == keys[0] then Lookup(child', p[1..]) else Lookup(t, p)) {
        LookupReplaceChild(t.children, keys[0], child', p);
      }
      forall p | p != keys && p != [] && p[0] == keys[0] ensures Lookup(t, p) == Lookup(child, p[1..]) {
        assert keys == [keys[0]] + keys[1..];
        if keys[0] !in t.children {
          assert Fetch(t, p) == None;
          if |keys| == 1 {
            assert p[1..] != [];
          }
        }
      }
      r
  }

  /** `.push(w)` on the successor list reached by `keys`. */
  function Append(t: Trie, keys: seq<string>, w: string): (r: Trie)
    requires Lookup(t, keys).Some?
    ensures Lookup(r, keys) == Some(Lookup(t, keys).value + [w])
    ensures forall p | p != keys :: Lookup(r, p) == Lookup(t, p)
    ensures WellFormed(t, |keys|) ==> WellFormed(r, |keys|)
    decreases |keys|
  {
    if keys == [] then Successors(t.words + [w])
    else
      var child' := Append(t.children[keys[0]], keys[1..], w);
      var r := Node(t.children[keys[0] := child']);
      forall p ensures Lookup(r, p) == (if p != [] && p[0] == keys[0] then Lookup(child', p[1..]) else Lookup(t, p)) {
        LookupReplaceChild(t.children, keys[0], child', p);
      }
      r
  }

  /** Replacing the child under `k` changes exactly the lookups that go
      through `k`. */
  lemma LookupReplaceChild(c: map<string, Trie>, k: string, x: Trie, p: seq<string>)
    ensures Lookup(Node(c[k := x]), p)
         == if p != [] && p[0] == k then Lookup(x, p[1..]) else Lookup(Node(c), p)
  {
  }

  /** One step of `_addSentenceToModel`: default-assign an empty array
      under the window, then push the next word onto it. */
  function Push(t: Trie, key: seq<string>, w: string): (r: Trie)
    requires WellFormed(t, |key|)
    ensures WellFormed(r, |key|)
    ensures Lookup(r, key) == Some(Lookup(t, key).GetOr([]) + [w])
    ensures forall p | p != key :: Lookup(r, p) == Lookup(t, p)
  {
    Append(DefaultAssign(t, key, []), key, w)
  }

  /** A flat table from prefixes to successor lists. */
  type Table = map<seq<string>, seq<string>>

  /** The list under `key`, or `[]` when there is none. */
  function Get(m: Table, key: seq<string>): seq<string> {
    if key in m then m[key] else []
  }

  /** Reference for `Push` on the flat view: append `w` to the list under
      `key`, starting from `[]` when the key is new. */
  function FlatPush(m: Table, key: seq<string>, w: string): (m': Table)
    ensures m'.Keys == m.Keys + {key}
    ensures Get(m', key) == Get(m, key) + [w]
    ensures forall k | k != key :: Get(m', k) == Get(m, k)
  {
    m[key := Get(m, key) + [w]]
  }

  /** `Push` on the nested model is `FlatPush` on its flat view. */
  lemma PushFlat(t: Trie, key: seq<string>, w: string)
    requires WellFormed(t, |key|)
    ensures Flat(Push(t, key, w)) == FlatPush(Flat(t), key, w)
  {
    var r := Push(t, key, w);
    var m := Flat(t);
    var b := FlatPush(m, key, w);
    forall p ensures Lookup(r, p) == (if p in b then Some(b[p]) else None) {
      if p != key {
        assert Lookup(r, p) == Lookup(t, p);
        assert Get(b, p) == Get(m, p);
      } else {
        assert Lookup(t, key).GetOr([]) == Get(m, key);
      }
    }
    FlatIs(r, b);
  }

  /** A table that agrees with every lookup is the flat view. */
  lemma FlatIs(t: Trie, m: Table)
    requires forall p :: Lookup(t, p) == (if p in m then Some(m[p]) else None)
    ensures Flat(t) == m
  {
    var f := Flat(t);
    assert forall p :: p in f <==> p in m;
    assert forall p | p in f :: f[p] == m[p];
  }

  /** Every path below reaches a non-empty successor list.  The builder
      creates a level or a list only on the way to pushing a word into it,
      so every level it leaves behind is live. */
  predicate Live(t: Trie)
    decreases t
  {
    match t
    case Successors(ws) => |ws| > 0
    case Node(c) => |c| > 0 && forall k | k in c :: Live(c[k])
  }

  /** A model root: an object whose every entry is live (the root itself
      may be the empty model). */
  predicate Healthy(t: Trie) {
    t.Node? && forall k | k in t.children :: Live(t.children[k])
  }

  /** `Push` below a non-empty key descends into the existing child, or a
      fresh `{}` / `[]`, and replaces that child by the push into it. */
  lemma PushUnfold(t: Trie, key: seq<string>, w: string)
    requires |key| >= 1 && WellFormed(t, |key|)
    ensures Push(t, key, w) == Node(t.children[key[0] := Push(Descend(t, key, []), key[1..], w)])
  {
    var child := Descend(t, key, []);
    var da := DefaultAssign(child, key[1..], []);
    var d := DefaultAssign(t, key, []);
    DefaultAssignUnfold(t, key, []);
    AppendUnfold(d, key, w);
    assert t.children[key[0] := da][key[0] := Append(da, key[1..], w)]
        == t.children[key[0] := Append(da, key[1..], w)];
  }

  lemma DefaultAssignUnfold(t: Trie, keys: seq<string>, value: seq<string>)
    requires |keys| >= 1 && WellFormed(t, |keys|)
    ensures DefaultAssign(t, keys, value)
         == Node(t.children[keys[0] := DefaultAssign(Descend(t, keys, value), keys[1..], value)])
  {
  }

  lemma AppendUnfold(t: Trie, keys: seq<string>, w: string)
    requires |keys| >= 1 && Lookup(t, keys).Some?
    ensures t.Node? && keys[0] in t.children
    ensures Append(t, keys, w) == Node(t.children[keys[0] := Append(t.children[keys[0]], keys[1..], w)])
  {
  }

  lemma {:induction false} PushLive(t: Trie, key: seq<string>, w: string)
    requires WellFormed(t, |key|)
    requires Live(t) || t == Empty || t == Successors([])
    ensures Live(Push(t, key, w))
    decreases |key|
  {
    if key == [] {
      assert Push(t, [], w) == Successors(t.words + [w]);
    } else {
      var child := Descend(t, key, []);
      if key[0] in t.children {
        assert Live(child) by { assert Live(t); }
      }
      PushLive(child, key[1..], w);
      var x := Push(child, key[1..], w);
      LiveUpdate(t, key[0], x);
      PushUnfold(t, key, w);
    }
  }

  /** Replacing or adding one live entry of a live (or empty) object
      leaves it live. */
  lemma LiveUpdate(t: Trie, k: string, x: Trie)
    requires t.Node? && (Live(t) || t == Empty) && Live(x)
    ensures Live(Node(t.children[k := x]))
  {
    var m := t.children[k := x];
    forall j | j in m ensures Live(m[j]) {
      if j != k {
        assert j in t.children && Live(t);
      }
    }
    assert k in m.Keys;
  }

  /** Pushing a word keeps a healthy root healthy. */
  lemma PushHealthy(t: Trie, key: seq<string>, w: string)
    requires |key| >= 1 && WellFormed(t, |key|)
    requires Healthy(t)
    ensures Healthy(Push(t, key, w))
  {
    PushLive(t, key, w);
  }

  lemma {:induction false} LiveFetch(t: Trie, path: seq<string>)
    requires Live(t) && Fetch(t, path).Some?
    ensures Live(Fetch(t, path).value)
    decreases |path|
  {
    if path != [] {
      LiveFetch(t.children[path[0]], path[1..]);
    }
  }

  /** In a healthy model every stored successor list is non-empty. */
  lemma HealthyListsNonEmpty(t: Trie, key: seq<string>)
    requires Healthy(t) && key in Flat(t)
    ensures |Flat(t)[key]| > 0
  {
    var c := t.children[key[0]];
    assert Fetch(t, key) == Fetch(c, key[1..]);
    LiveFetch(c, key[1..]);
  }

  /** In a healthy model every level reached by a non-empty path has at
      least one key to choose from. */
  lemma HealthyNoDeadEnd(t: Trie, path: seq<string>)
    requires Healthy(t) && |path| >= 1
    requires Fetch(t, path).Some? && Fetch(t, path).value.Node?
    ensures |Fetch(t, path).value.children| > 0
  {
    var c := t.children[path[0]];
    assert Fetch(t, path) == Fetch(c, path[1..]);
    LiveFetch(c, path[1..]);
  }
}
