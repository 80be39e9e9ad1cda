/** The generator object: construction with option defaults
    (`generator`), chained building (`buildModel`), and the retry loop
    that accepts the first suitable candidate (`generateSentence`). */
module Generator {
  import opened Wrappers
  import opened Tries
  import Builder
  import Tokens
  import Walk

  const DefaultMaxTries: int := 1000
  const DefaultPrefixSize: int := 3

  /** The constructor's options; `None` is a property left undefined. */
  datatype Options = Options(maxTries: Option<int>, prefixSize: Option<int>)

  /** `this._model`: the nested model together with its options. */
  datatype Markov = Markov(model: Trie, options: Options)

  /** `_.defaults(options, defaultOptions)`: fill in only what is undefined. */
  function WithDefaults(o: Options): (d: Options)
    ensures d.maxTries.Some? && d.prefixSize.Some?
    ensures o.maxTries.Some? ==> d.maxTries == o.maxTries
    ensures o.prefixSize.Some? ==> d.prefixSize == o.prefixSize
    ensures o.maxTries.None? ==> d.maxTries == Some(DefaultMaxTries)
    ensures o.prefixSize.None? ==> d.prefixSize == Some(DefaultPrefixSize)
  {
    Options(Some(o.maxTries.GetOr(DefaultMaxTries)), Some(o.prefixSize.GetOr(DefaultPrefixSize)))
  }

  /** Filling in defaults a second time changes nothing. */
  lemma WithDefaultsIdempotent(o: Options)
    ensures WithDefaults(WithDefaults(o)) == WithDefaults(o)
  {
  }

  /** `new generator(options, model)`: without a model, an empty model with
      the given options; with one, that model with its own options filled
      in, and the `options` argument unused. */
  function Create(options: Options, saved: Option<Markov>): (g: Markov)
    ensures g.options.maxTries.Some? && g.options.prefixSize.Some?
    ensures saved.None? ==> g.model == Empty && g.options == WithDefaults(options)
    ensures saved.Some? ==> g.model == saved.value.model && g.options == WithDefaults(saved.value.options)
  {
    var m := if saved.None? then Markov(Empty, options) else saved.value;
    Markov(m.model, WithDefaults(m.options))
  }

  /** A supplied model decides the configuration on its own. */
  lemma CreateIgnoresOptions(a: Options, b: Options, saved: Markov)
    ensures Create(a, Some(saved)) == Create(b, Some(saved))
  {
  }

  /** The generator is usable for building: a positive prefix size and a
      model of that depth. */
  predicate Configured(g: Markov) {
    && g.options.prefixSize.Some?
    && g.options.prefixSize.value >= 1
    && WellFormed(g.model, g.options.prefixSize.value)
  }

  /** A fresh generator with a positive prefix size is configured and its
      empty model satisfies the built-model invariants. */
  lemma CreateConfigured(options: Options)
    requires options.prefixSize.None? || options.prefixSize.value >= 1
    ensures Configured(Create(options, None))
    ensures Builder.Built(Create(options, None).model, Create(options, None).options.prefixSize.value)
  {
    var g := Create(options, None);
    Builder.EmptyBuilt(g.options.prefixSize.value);
  }

  /** `buildModel`: add the sentences to the model; the options are kept,
      so the same generator comes back for chaining. */
  function BuildModel(g: Markov, sentences: seq<string>): (g': Markov)
    requires Configured(g)
    ensures Configured(g') && g'.options == g.options
    ensures Flat(g.model).Keys <= Flat(g'.model).Keys
  {
    var p := g.options.prefixSize.value;
    var m := Builder.BuildModel(g.model, p, sentences);
    forall key | key in Flat(g.model) ensures key in Flat(m) {
      Builder.BuildModelGrows(g.model, p, sentences, key);
    }
    Markov(m, g.options)
  }

  /** Building in two chained calls is building once from both batches. */
  lemma BuildModelChained(g: Markov, a: seq<string>, b: seq<string>)
    requires Configured(g)
    ensures BuildModel(BuildModel(g, a), b) == BuildModel(g, a + b)
  {
    Builder.BuildModelConcat(g.model, g.options.prefixSize.value, a, b);
  }

  /** The `validator` option.  `_.defaults` replaces only an undefined
      value, so a `null` (or any other non-function value) stays and the
      call to it throws a `TypeError`. */
  datatype Validator = Undefined | NotCallable | Call(f: string -> bool)

  /** The options of `generateSentence`; for `maxLength`, `None` is null or
      undefined, which are both falsy. */
  datatype SentenceOptions = SentenceOptions(maxLength: Option<int>, validator: Validator)

  /** `EXCEEDED_MAX_TRIES`, or the `TypeError` of calling a validator that
      is not a function. */
  datatype Error = ExceededMaxTries | ValidatorNotCallable

  /** JavaScript truthiness of `maxLength`: absent, null and 0 are falsy. */
  predicate HasLengthBound(opts: SentenceOptions) {
    opts.maxLength.Some? && opts.maxLength.value != 0
  }

  /** The candidate passes the length test, so the validator is called on
      it.  The bound is compared with the candidate's character length,
      since the candidate is the joined string. */
  predicate WithinBound(opts: SentenceOptions, s: string) {
    !(HasLengthBound(opts) && opts.maxLength.value < |s|)
  }

  /** The candidate is returned: within the bound, and the validator (the
      accept-all default when undefined) answers true. */
  predicate Accepts(opts: SentenceOptions, s: string) {
    && WithinBound(opts, s)
    && match opts.validator
       case Undefined => true
       case NotCallable => false
       case Call(f) => f(s)
  }

  /** The candidate makes the loop throw: it reaches a validator that is
      not a function. */
  predicate Throws(opts: SentenceOptions, s: string) {
    WithinBound(opts, s) && opts.validator.NotCallable?
  }

  /** Reference semantics of the retry loop: the first acceptable
      candidate; a `TypeError` at the first candidate within the bound when
      the validator is not a function; otherwise `ExceededMaxTries`. */
  function FirstAccepted(opts: SentenceOptions, candidates: seq<string>): (r: Result<string, Error>)
    ensures r.Success? <==> exists i | 0 <= i < |candidates| :: Accepts(opts, candidates[i])
    ensures r.Success? ==>
              exists i | 0 <= i < |candidates| ::
                && r.value == candidates[i]
                && Accepts(opts, candidates[i])
                && forall j | 0 <= j < i :: !Accepts(opts, candidates[j])
    ensures r == Failure(ValidatorNotCallable) <==> exists i | 0 <= i < |candidates| :: Throws(opts, candidates[i])
    decreases |candidates|
  {
    if candidates == [] then Failure(ExceededMaxTries)
    else if Accepts(opts, candidates[0]) then Success(candidates[0])
    else if Throws(opts, candidates[0]) then Failure(ValidatorNotCallable)
    else
      var r := FirstAccepted(opts, candidates[1..]);
      assert forall i | 0 <= i < |candidates[1..]| :: candidates[1..][i] == candidates[i + 1];
      r
  }

  /** The number of candidates the loop may draw: `maxTries`, or none when
      it is not positive. */
  function TryBudget(maxTries: int): nat {
    if maxTries > 0 then maxTries else 0
  }

  /** `generateSentence`: `candidates[i]` stands for what the `i`-th call of
      `_generateSentence` returns.  The loop returns the first accepted one
      among the first `maxTries`, or throws at the first candidate that
      reaches a non-function validator; `attempts` is how many it drew. */
  method GenerateSentence(g: Markov, opts: SentenceOptions, candidates: seq<string>)
    returns (r: Result<string, Error>, attempts: nat)
    requires g.options.maxTries.Some?
    requires TryBudget(g.options.maxTries.value) <= |candidates|
    ensures r == FirstAccepted(opts, candidates[..TryBudget(g.options.maxTries.value)])
    ensures r == Failure(ExceededMaxTries) ==> attempts == TryBudget(g.options.maxTries.value)
    ensures r != Failure(ExceededMaxTries) ==>
              && 1 <= attempts <= TryBudget(g.options.maxTries.value)
              && forall j | 0 <= j < attempts - 1 :: !Accepts(opts, candidates[j]) && !Throws(opts, candidates[j])
    ensures r.Success? ==> r.value == candidates[attempts - 1] && Accepts(opts, r.value)
    ensures r == Failure(ValidatorNotCallable) ==> Throws(opts, candidates[attempts - 1])
  {
    var maxTries := g.options.maxTries.value;
    ghost var budget := TryBudget(maxTries);
    var i := 0;
    while i < maxTries
      invariant 0 <= i <= budget
      invariant forall j | 0 <= j < i :: !Accepts(opts, candidates[j]) && !Throws(opts, candidates[j])
    {
      var s := candidates[i];
      if HasLengthBound(opts) && opts.maxLength.value < |s| {
        i := i + 1;
        continue;
      }
      match opts.validator {
        case NotCallable =>
          FirstAcceptedThrows(opts, candidates[..budget], i);
          return Failure(ValidatorNotCallable), i + 1;
        case Call(f) =>
          if !f(s) {
            i := i + 1;
            continue;
          }
        case Undefined =>
      }
      FirstAcceptedAt(opts, candidates[..budget], i);
      return Success(s), i + 1;
    }
    FirstAcceptedNone(opts, candidates[..budget]);
    return Failure(ExceededMaxTries), i;
  }

  /** The candidate at `i` is the result when it is acceptable and every
      earlier one is not. */
  lemma FirstAcceptedAt(opts: SentenceOptions, candidates: seq<string>, i: nat)
    requires i < |candidates| && Accepts(opts, candidates[i])
    requires forall j | 0 <= j < i :: !Accepts(opts, candidates[j])
    ensures FirstAccepted(opts, candidates) == Success(candidates[i])
  {
    var r := FirstAccepted(opts, candidates);
    var k :| 0 <= k < |candidates| && r.value == candidates[k] && Accepts(opts, candidates[k])
             && forall j | 0 <= j < k :: !Accepts(opts, candidates[j]);
    if k < i {
    } else if i < k {
    }
  }

  /** A candidate within the bound of a non-function validator makes the
      loop throw. */
  lemma FirstAcceptedThrows(opts: SentenceOptions, candidates: seq<string>, i: nat)
    requires i < |candidates| && Throws(opts, candidates[i])
    ensures FirstAccepted(opts, candidates) == Failure(ValidatorNotCallable)
  {
  }

  lemma FirstAcceptedNone(opts: SentenceOptions, candidates: seq<string>)
    requires forall j | 0 <= j < |candidates| :: !Accepts(opts, candidates[j]) && !Throws(opts, candidates[j])
    ensures FirstAccepted(opts, candidates) == Failure(ExceededMaxTries)
  {
  }

  /** A validator that rejects everything makes every call fail. */
  lemma RejectingValidatorFails(opts: SentenceOptions, candidates: seq<string>)
    requires opts.validator.Call? && forall s :: !opts.validator.f(s)
    ensures FirstAccepted(opts, candidates) == Failure(ExceededMaxTries)
  {
  }

  /** An accepted sentence respects a truthy `maxLength` in characters, and,
      when it is a join whose first word is non-empty, in words too. */
  lemma AcceptedWithinBound(opts: SentenceOptions, candidates: seq<string>, words: seq<string>)
    requires HasLengthBound(opts)
    requires FirstAccepted(opts, candidates) == Success(Tokens.Join(words))
    requires words == [] || |words[0]| > 0
    ensures |Tokens.Join(words)| <= opts.maxLength.value
    ensures |words| <= opts.maxLength.value
  {
    Tokens.JoinLength(words);
  }

  /** Every accepted candidate that a walk produced respects a truthy
      `maxLength` in characters and in words, empty words included: the
      walk's first word always begins with a capital. */
  lemma AcceptedWalkWithinBound(opts: SentenceOptions, candidates: seq<string>,
                                t: Trie, prefixSize: nat, start: seq<string>, draws: seq<string>)
    requires HasLengthBound(opts)
    requires Walk.ValidStart(t, prefixSize, start) && Walk.ValidDraws(t, start, draws)
    requires Walk.Walk(t, start, draws).Some?
    requires FirstAccepted(opts, candidates) == Success(Tokens.Join(Walk.Walk(t, start, draws).value))
    ensures |Walk.Walk(t, start, draws).value| <= opts.maxLength.value
  {
    var words := Walk.Walk(t, start, draws).value;
    Walk.WalkFirstWord(t, prefixSize, start, draws);
    AcceptedWithinBound(opts, candidates, words);
  }
}
