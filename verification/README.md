# yet-another-markov-generator, modelled in Dafny

This project models the core of `index.js`: a word-level Markov chain sentence generator.
Training sentences are split on whitespace, and the end-of-line marker `"\n"` is appended.
Every window of `prefixSize` consecutive tokens that is followed by another token becomes a path in a nested object.
The token that follows the window is pushed onto the array at the end of that path.
Generation works in three steps:

- It picks a capitalised first word and descends the nested object to a start window.
- It draws successors until it draws the marker, sliding the window as it goes.
- It joins the collected words with single spaces.

`generateSentence` retries this up to `maxTries` times. It returns the first candidate that passes the length bound and the validator. Otherwise it throws `EXCEEDED_MAX_TRIES`.

Modules, one per file:

- `wrappers.dfy` (`Wrappers`): `Option` and `Result`.
- `tokens.dfy` (`Tokens`): `sentence.split(/\s+/)` over the full JavaScript `\s` set, and `words.join(" ")`.
- `trie.dfy` (`Tries`): the nested model, in these pieces:
  - `Node` for an object and `Successors` for an array.
  - `_deepObjectFetch` as `Fetch`.
  - `_deepObjectDefaultAssign` as `DefaultAssign`.
  - The `.push` after it, as `Append` and `Push`.
  - The flat view `Flat`, which maps every full prefix to its successor list.
  - The liveness invariant.
- `builder.dfy` (`Builder`): `_addSentenceToModel` and `buildModel`. A reference semantics states on the flat view which successor each step records under which prefix. It also holds the invariants of a built model.
- `walk.dfy` (`Walk`): `_getFirstWords`, `_popPrefixes` and `_generateSentence`.
  - Every random pick is an explicit argument.
  - The start window is constrained to be an outcome `_popPrefixes` can produce.
  - Each draw is constrained to be a member of the list it is drawn from.
  - The finite sequence of draws is the walk's fuel. The walk yields `None` when the draws run out before the marker.
- `generator.dfy` (`Generator`): the constructor's option defaults, chained `buildModel`, and the retry loop of `generateSentence`. The loop runs over the sequence of candidates that successive `_generateSentence` calls return.
- `scenario.dfy` (`Scenario`): the repository's test case. It builds the model from "The quick brown fox jumped over the lazy dog." with one-word prefixes and generates from it.

Five behaviours of the code are easy to misread. The model follows the code:

- `maxLength` is compared with the length of the joined string in characters, not with a number of words (index.js:71, index.js:162).
- When the marker is drawn, the flush loop tests `i < prefixes.length` while `shift()` shortens the array. So only the first `ceil(prefixSize/2)` window words reach the sentence, not the whole window (index.js:155). `Walk.Flush` and `Walk.Walk` state this count.
- When a saved model is passed to the constructor, the `options` argument is not used at all. Only the saved model's own options get defaults (index.js:24-25).
- A sentence with at most `prefixSize` tokens, the marker included, records nothing. The `while` loop never runs, so no prefix ever contains the marker (index.js:113-120).
- A `maxLength` of `0` counts as "no bound", because the test is JavaScript truthiness (index.js:71).

The nested model is one recursive datatype rather than separate types for inner levels and the last level. `Node(map[])` is the empty object `{}` at every depth, and `WellFormed(t, depth)` says that arrays sit exactly at depth `prefixSize`.

## Model

| member | source | states |
|---|---|---|
| Tokens.Split | index.js:110 | Splitting yields at least one token. No token contains whitespace. The tokens concatenated are the sentence with its whitespace removed. |
| Tokens.SplitWeave | index.js:110 | The sentence is its tokens with a non-empty whitespace run between each two neighbours, and only the first and the last token can be empty. |
| Tokens.WeaveSplit | index.js:110 | Conversely, splitting such a weave gives its words back, so the cuts fall exactly at the maximal whitespace runs. |
| Tokens.SplitEdges | index.js:110 | For a non-empty sentence, the first token is empty exactly when the sentence starts with whitespace, and the last token is empty exactly when it ends with whitespace. |
| Tokens.Join | index.js:162 | The words one after another with a single space between each two neighbours, and the empty string for no words. |
| Tokens.SplitJoin | index.js:162 | Splitting a single-space join of non-empty, whitespace-free words gives the same words back. |
| Tokens.JoinAppend | index.js:162 | Joining two non-empty runs of words is joining each run and putting one space between them. |
| Tokens.JoinLength | index.js:162 | A join whose first word is non-empty has at least as many characters as words, even when later words are empty. A character bound therefore also bounds the word count. |
| Tries.Fetch | index.js:99-106 | Follows the path key by key from the root. It yields the level reached, or nothing as soon as a key is missing or an array is reached before the path ends. |
| Walk.FetchAppend | index.js:99-106 | Fetching along `a + b` is fetching along `a`, then along `b` from where that ends. Fetching fails if either part fails. |
| Walk.FetchWellFormed | index.js:99-106 | A successful fetch in a model of depth `d` follows at most `d` keys and reaches a level of the remaining depth. |
| Tries.Flat | index.js:99-106 | A prefix is in the flat view exactly when fetching it reaches an array, and the view maps it to that array. |
| Tries.DefaultAssign | index.js:84-96 | After default-assign, the array under `keys` is the old one when it existed and `value` otherwise. Every other path reads as before, so nothing existing is replaced. The depth is kept. |
| Tries.Append | index.js:117 | Pushing `w` extends the array under `keys` by `w` at its end and leaves every other path unchanged. |
| Tries.Push | index.js:117 | Default-assign followed by push: the array under `key` becomes its old value (or `[]`) followed by `w`. Nothing else changes and the depth is kept. |
| Tries.PushFlat | index.js:117 | On the flat view, a push is the reference update that appends `w` to the list under `key`, starting from `[]` for a new key. |
| Tries.PushLive | index.js:84-96 | Pushing into a model whose every level and array is non-empty keeps it so. The levels and the array created on the way are filled in the same step. |
| Tries.HealthyListsNonEmpty | index.js:117 | In a model built this way, every stored successor array is non-empty. |
| Tries.HealthyNoDeadEnd | index.js:136-137 | In such a model, every level reached by a non-empty path has at least one key to choose from. |
| Builder.SentenceTokens | index.js:110-111 | The token list ends with the marker. Every earlier token is free of whitespace and is not the marker. |
| Builder.Feed | index.js:115-120 | The shift/push loop records, on the flat view, exactly the steps of the window-plus-rest token list, in order. |
| Builder.AddSentence | index.js:109-123 | Adding a sentence applies, in order, one step per token after the first `prefixSize`: that token is pushed under the `prefixSize` tokens before it. Nothing else changes, and a sentence too short for a step changes nothing. |
| Builder.FlatApplyGet | index.js:115-120 | Key by key: every list ends as its old value followed by exactly the words the steps record under that key, in order. A key is present afterwards exactly when it was before or some step uses it. |
| Builder.AddSentenceAppendRule | index.js:109-123 | Per prefix, one sentence extends the stored list by exactly the tokens that follow that prefix in the sentence. Lists under other prefixes stay the same. |
| Builder.BuildModel | index.js:41-47 | Adds the sentences to the model one after another, in order, and keeps the model's depth. |
| Builder.BuildModelConcat | index.js:41-47 | Building from one batch and then another gives the same model as building once from their concatenation. |
| Builder.BuildModelGrows | index.js:41-47 | Building only extends: every existing prefix stays, and its old list is a prefix of its new list. |
| Builder.TerminatorLast | index.js:111-120 | Within one sentence the marker is the last word recorded, and no earlier step records it. |
| Builder.StepsKeepKeys | index.js:113-120 | After adding a sentence, every prefix still has exactly `prefixSize` words and none contains the marker. |
| Builder.StepsKeepClosed | index.js:115-120 | Every stored non-marker successor, slid into its window, gives a window that is itself stored, so the walk never reaches a missing prefix. |
| Builder.AddSentenceBuilt | index.js:109-123 | Adding a sentence keeps all built-model invariants: correct depth, no empty level or array, no marker in a prefix, every key of length `prefixSize`, and closure under sliding. |
| Builder.BuildModelBuilt | index.js:41-47 | Building from any sentences keeps the built-model invariants, so every model built from the empty one satisfies them. |
| Walk.FirstWords | index.js:125-127 | The keys of the top level whose first character is an ASCII capital, and none when the top level is not an object. |
| Walk.ValidPartial | index.js:133-140 | A window `_popPrefixes` can have built so far: a first word, then at each later position a key of the level that the earlier words lead to. |
| Walk.ValidStart | index.js:133-140 | A start window `_popPrefixes` can return: such a window of exactly `prefixSize` words. |
| Walk.ValidDraws | index.js:150-159 | The draws a run can make: each draw is a member of the list stored under the current window, the window slides by that draw, and nothing is constrained after the first marker. |
| Walk.StartWindows | index.js:125-140 | A start window can be produced exactly when it is a stored prefix whose first word begins with an ASCII capital. |
| Walk.PopPrefixesNeverStuck | index.js:133-140 | In a built model, every partial start window shorter than `prefixSize` has at least one key to extend it with. |
| Walk.BuiltDrawsValid | index.js:150-160 | In a built model, every window the walk reaches is stored, so membership in the successor lists alone makes the draws legitimate. |
| Walk.Flush | index.js:155 | The flush loop emits the first `ceil((length - i)/2)` words of the window, in order, rather than the whole window. |
| Walk.Walk | index.js:150-160 | The walk finishes exactly when some draw is the marker. The sentence is the start window followed by the draws before the first marker, cut after `n + ceil(prefixSize/2)` words, where `n` is the number of draws before the marker. |
| Walk.WalkFirstWord | index.js:125-158 | A finished walk is never empty, and its first word is the start window's first word, which begins with an ASCII capital. |
| Walk.GenerateCandidate | index.js:142-163 | A candidate sentence is that word sequence joined with single spaces. |
| Walk.WalkWords | index.js:142-163 | A sentence generated from a model whose prefixes never contain the marker never contains it either, and has `n + ceil(prefixSize/2)` words. |
| Generator.WithDefaults | index.js:19-25 | A missing `maxTries` becomes 1000 and a missing `prefixSize` becomes 3. Values already present are kept. |
| Generator.WithDefaultsIdempotent | index.js:25 | Filling in the defaults a second time changes nothing. |
| Generator.Create | index.js:18-28 | Without a saved model the generator starts with the empty model and the defaulted options. With one, it takes that model and its defaulted options. |
| Generator.CreateIgnoresOptions | index.js:24-25 | When a saved model is given, the options argument has no effect. |
| Generator.CreateConfigured | index.js:18-28 | A fresh generator with a positive prefix size is ready to build, and its empty model satisfies the built-model invariants. |
| Generator.BuildModel | index.js:41-47 | `buildModel` keeps the options and the depth, and every prefix already stored stays stored. The same generator comes back for chaining. |
| Generator.BuildModelChained | index.js:41-47 | Two chained `buildModel` calls build the same model as one call with both batches. |
| Generator.FirstAccepted | index.js:62-78 | The reference result succeeds exactly when some candidate is acceptable, and then it is the first acceptable one. It is a `TypeError` exactly when some candidate within the length bound meets a validator that is not a function (a `null` one, which `_.defaults` keeps). Otherwise it is `EXCEEDED_MAX_TRIES`. |
| Generator.GenerateSentence | index.js:60-79 | The loop returns the first acceptable candidate among the first `maxTries`. `attempts` is its position: every earlier candidate was rejected without throwing. A non-function validator throws at the first candidate within the bound. When none is acceptable it fails with `EXCEEDED_MAX_TRIES` after drawing all of them. |
| Generator.FirstAcceptedThrows | index.js:66-72 | A candidate within the length bound that meets a validator that is not a function makes the loop throw, since `_.defaults` leaves a `null` validator in place. |
| Generator.RejectingValidatorFails | test.js:36-45 | A validator that rejects everything makes every call fail with `EXCEEDED_MAX_TRIES`. |
| Generator.AcceptedWithinBound | index.js:71 | Under a truthy `maxLength`, an accepted sentence has at most that many characters. When it is a join whose first word is non-empty, it also has at most that many words. |
| Generator.AcceptedWalkWithinBound | index.js:69-76 | Under a truthy `maxLength`, an accepted sentence produced by a walk has at most that many words, even when it contains empty words from training text with leading or trailing whitespace. |
| Scenario.SentenceTokensOfSentence | index.js:110-111 | The test sentence splits into its nine words followed by the marker. |
| Scenario.ChainKeys | index.js:109-123 | With one-word prefixes and no repeated word, a model built from one sentence has exactly the sentence's words as keys. |
| Scenario.ChainValue | index.js:109-123 | In that model each word's array holds only the token after it. |
| Scenario.BuildExample | test.js:6-21 | With `prefixSize` 1, building from the test sentence yields exactly the expected chain The → quick → … → dog. → marker. |
| Scenario.GenerateExample | test.js:30-34 | Every sentence the generator can produce from that model is the test sentence, so two generators holding that model agree. |
| Scenario.ExampleRunExists | test.js:30-34 | The start window and draws that produce the test sentence are ones the generator can actually make. |

## Left out

- `toJSON` and `fromJSON` are plain `JSON.stringify` and `JSON.parse` calls. Their round trip is a property of the JSON library.
- `Math.random` and its floating-point index arithmetic (index.js:129-131) are replaced by explicit choices, each constrained to be a member of the keys or the array it is drawn from.
- The candidates of `generateSentence` are an explicit sequence standing for the results of successive `_generateSentence` calls, so the random source is not modelled.
- `Walk.Walk` is bounded by the finite sequence of draws, its fuel. An infinite walk, which the source can perform on a cyclic model with an unlucky random source, is represented only by `None` for every finite prefix of its draws.
- The crashes and `undefined` values of JavaScript are expressed as preconditions instead of modelled failures. This covers an empty set of first words, a descent into a missing key, a `prefixSize` below 1, and a missing `maxTries`. A validator that is not a function is modelled as the failure `ValidatorNotCallable`.
- JavaScript object details are left out: key order from `_.keys`, prototype keys such as `__proto__`, and `_.defaults` mutating the caller's options object.
- Aliasing is left out. The constructor stores the saved model object itself, not a copy (index.js:24). So `buildModel` on one generator changes every other holder of that object, and `_.defaults` (index.js:25) writes the defaults into the saved object's own `options`. `Generator.Create` returns a new value, so it shows neither effect.
- `_deepObjectFetch` is modelled only on the objects and arrays a model is built from. In JavaScript, a key such as `"0"` or `"length"` applied to an array yields an element or a property rather than nothing. `Tries.Fetch` gives `None` there. The model never reaches this case, because it fetches at most `prefixSize` keys in a model of that depth.
- String length is counted in characters rather than UTF-16 code units.
- `maxTries` and `maxLength` are modelled as integers. Non-integer numbers and non-numeric values are not.
- The tape test runner of the test file is not modelled. The test's assertions appear as the `Scenario` lemmas.
