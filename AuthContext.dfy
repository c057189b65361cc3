/** The authentication context: translation of the identity service's error
    texts into fixed Portuguese messages, the wrapping of every auth call's
    `{data, error}` reply into a tagged result, and the two-field session
    store (`session`, `loading`) that the provider keeps. */
module AuthContext {
  import opened Wrappers
  import opened Text

  // ---------------------------------------------------------------------
  // Error translation
  // ---------------------------------------------------------------------

  const AlreadyRegisteredText := "Usuário já registrado."
  const InvalidCredentialsText := "Credenciais inválidas."
  const WeakPasswordText := "A senha deve ter pelo menos 6 caracteres."
  // Written as two literals each so that proofs can read their characters.
  const RateLimitedText := "Muitas tentativas. " + "Tente novamente mais tarde."
  const MissingFunctionText := "Erro de configuração: " + "Função de exclusão não encontrada."
  /** Put in front of a message no rule recognises. */
  const FallbackPrefix := "Erro: "

  /** The provider's error text mapped to a fixed message, trying the rules
      in order and keeping the first that matches; an unknown text is echoed
      after `FallbackPrefix`. */
  function TranslateError(message: string): (r: string)
    ensures r != []
  {
    if Contains(message, "User already registered") then AlreadyRegisteredText
    else if Contains(message, "Invalid login credentials") then InvalidCredentialsText
    else if Contains(message, "Password should be at least") then WeakPasswordText
    else if Contains(message, "Retry after") then RateLimitedText
    else if Contains(message, "function public.delete_user") || Contains(message, "Could not find the function") then MissingFunctionText
    else FallbackPrefix + message
  }

  /** A translation rule: its text applies when any of its patterns occurs. */
  datatype Rule = Rule(patterns: seq<string>, text: string)

  predicate Fires(rule: Rule, message: string) {
    exists k :: 0 <= k < |rule.patterns| && Contains(message, rule.patterns[k])
  }

  /** The translation rules, in the order they are tried. */
  const Rules: seq<Rule> := [
    Rule(["User already registered"], AlreadyRegisteredText),
    Rule(["Invalid login credentials"], InvalidCredentialsText),
    Rule(["Password should be at least"], WeakPasswordText),
    Rule(["Retry after"], RateLimitedText),
    Rule(["function public.delete_user", "Could not find the function"], MissingFunctionText)
  ]

  /** Reference classifier: the text of the first rule that fires. */
  function FirstMatch(rules: seq<Rule>, message: string): string {
    if rules == [] then FallbackPrefix + message
    else if Fires(rules[0], message) then rules[0].text
    else FirstMatch(rules[1..], message)
  }

  /** `FirstMatch` yields the text of the lowest-numbered rule that fires. */
  lemma {:induction false} FirstMatchIsLeast(rules: seq<Rule>, message: string, i: nat)
    requires i < |rules| && Fires(rules[i], message)
    requires forall j :: 0 <= j < i ==> !Fires(rules[j], message)
    ensures FirstMatch(rules, message) == rules[i].text
  {
    if i > 0 {
      assert !Fires(rules[0], message);
      assert forall j :: 0 <= j < i - 1 ==> rules[1..][j] == rules[j + 1];
      FirstMatchIsLeast(rules[1..], message, i - 1);
    }
  }

  /** `FirstMatch` falls back to echoing the message exactly when no rule fires. */
  lemma {:induction false} FirstMatchFallback(rules: seq<Rule>, message: string)
    requires forall j :: 0 <= j < |rules| ==> !Fires(rules[j], message)
    ensures FirstMatch(rules, message) == FallbackPrefix + message
  {
    if rules != [] {
      assert !Fires(rules[0], message);
      assert forall j :: 0 <= j < |rules| - 1 ==> rules[1..][j] == rules[j + 1];
      FirstMatchFallback(rules[1..], message);
    }
  }

  lemma FiresSingle(pattern: string, text: string, message: string)
    ensures Fires(Rule([pattern], text), message) <==> Contains(message, pattern)
  {
    if Contains(message, pattern) {
      assert Rule([pattern], text).patterns[0] == pattern;
    }
  }

  lemma FiresPair(p: string, q: string, text: string, message: string)
    ensures Fires(Rule([p, q], text), message) <==> Contains(message, p) || Contains(message, q)
  {
    var rule := Rule([p, q], text);
    if Contains(message, p) { assert rule.patterns[0] == p; }
    if Contains(message, q) { assert rule.patterns[1] == q; }
  }

  /** Which of the rules fire on `message`, one pattern test per rule. */
  lemma RulesFire(message: string)
    ensures Fires(Rules[0], message) <==> Contains(message, "User already registered")
    ensures Fires(Rules[1], message) <==> Contains(message, "Invalid login credentials")
    ensures Fires(Rules[2], message) <==> Contains(message, "Password should be at least")
    ensures Fires(Rules[3], message) <==> Contains(message, "Retry after")
    ensures Fires(Rules[4], message) <==> Contains(message, "function public.delete_user") || Contains(message, "Could not find the function")
  {
    FiresSingle("User already registered", AlreadyRegisteredText, message);
    FiresSingle("Invalid login credentials", InvalidCredentialsText, message);
    FiresSingle("Password should be at least", WeakPasswordText, message);
    FiresSingle("Retry after", RateLimitedText, message);
    FiresPair("function public.delete_user", "Could not find the function", MissingFunctionText, message);
  }

  /** The if-chain computes the first-match classification over `Rules`. */
  lemma {:induction false} TranslateErrorIsFirstMatch(message: string)
    ensures TranslateError(message) == FirstMatch(Rules, message)
  {
    RulesFire(message);
    var i :| 0 <= i <= 5 && (i == 5 || Fires(Rules[i], message)) && forall j :: 0 <= j < i ==> !Fires(Rules[j], message);
    if i < 5 {
      FirstMatchIsLeast(Rules, message, i);
    } else {
      FirstMatchFallback(Rules, message);
    }
  }

  /** Rules are tried in order and the first that fires decides the text,
      whatever later rules would also match. */
  lemma TranslateErrorFirstRuleWins(message: string, i: nat)
    requires i < |Rules| && Fires(Rules[i], message)
    requires forall j :: 0 <= j < i ==> !Fires(Rules[j], message)
    ensures TranslateError(message) == Rules[i].text
  {
    TranslateErrorIsFirstMatch(message);
    FirstMatchIsLeast(Rules, message, i);
  }

  /** No fixed text has the fallback's shape, so the two kinds of result
      never coincide. */
  lemma FixedTextsAreNotFallback(message: string)
    ensures forall j :: 0 <= j < |Rules| ==> Rules[j].text != FallbackPrefix + message
  {
    var f := FallbackPrefix + message;
    assert f[0] == 'E' && f[4] == ':';
    assert AlreadyRegisteredText[0] == 'U';
    assert InvalidCredentialsText[0] == 'C';
    assert WeakPasswordText[0] == 'A';
    assert RateLimitedText[0] == 'M';
    assert MissingFunctionText[4] == ' ';
  }

  /** The fallback is taken exactly when no rule fires; the original text is
      then a suffix of the result. */
  lemma TranslateErrorFallback(message: string)
    ensures (forall j :: 0 <= j < |Rules| ==> !Fires(Rules[j], message))
            <==> TranslateError(message) == FallbackPrefix + message
    ensures TranslateError(message) == FallbackPrefix + message ==> IsSuffix(message, TranslateError(message))
  {
    TranslateErrorIsFirstMatch(message);
    if forall j :: 0 <= j < |Rules| ==> !Fires(Rules[j], message) {
      FirstMatchFallback(Rules, message);
    } else {
      var i :| 0 <= i < |Rules| && Fires(Rules[i], message) && forall j :: 0 <= j < i ==> !Fires(Rules[j], message);
      FirstMatchIsLeast(Rules, message, i);
      FixedTextsAreNotFallback(message);
    }
  }

  /** A message naming an existing account always translates to the
      already-registered text, since that rule is tried first. */
  lemma AlreadyRegisteredAlwaysWins(message: string)
    requires Contains(message, "User already registered")
    ensures TranslateError(message) == AlreadyRegisteredText
  {
  }

  /** Invalid credentials are reported even when the text also carries a
      rate-limit notice, because that rule comes earlier. */
  lemma InvalidCredentialsBeforeRateLimit(prefix: string, middle: string, suffix: string)
    requires !Contains(prefix + "Invalid login credentials" + middle + "Retry after" + suffix, "User already registered")
    ensures TranslateError(prefix + "Invalid login credentials" + middle + "Retry after" + suffix) == InvalidCredentialsText
  {
    var m := prefix + "Invalid login credentials" + middle + "Retry after" + suffix;
    assert m == prefix + "Invalid login credentials" + (middle + "Retry after" + suffix);
    ContainsInfix(prefix, "Invalid login credentials", middle + "Retry after" + suffix);
  }

  /** Either name of the missing deletion procedure yields the
      configuration-error text once no earlier rule fires. */
  lemma MissingFunctionDetected(message: string)
    requires Contains(message, "function public.delete_user") || Contains(message, "Could not find the function")
    requires forall j :: 0 <= j < 4 ==> !Fires(Rules[j], message)
    ensures TranslateError(message) == MissingFunctionText
  {
    RulesFire(message);
  }

  // ---------------------------------------------------------------------
  // Result wrapping
  // ---------------------------------------------------------------------

  /** The error object the identity service reports. */
  datatype ProviderError = ProviderError(message: string)

  /** The `{data, error}` pair an identity-service call resolves to. */
  datatype Reply<D> = Reply(data: D, error: Option<ProviderError>)

  /** `{success: true, data}` or `{success: false, error: {message}}`. */
  datatype AuthResult<D> = Success(data: D) | Failure(message: string)

  /** The wrapping shared by sign-up, password update and account deletion:
      a reported error becomes a failure carrying its translation, otherwise
      the reply's data is passed on. */
  function Wrap<D>(reply: Reply<D>): (r: AuthResult<D>)
    ensures r.Failure? <==> reply.error.Some?
    ensures r.Failure? ==> r.message == TranslateError(reply.error.value.message) && r.message != []
    ensures r.Success? ==> r.data == reply.data
  {
    match reply.error
    case Some(e) => Failure(TranslateError(e.message))
    case None => Success(reply.data)
  }

  /** `signOut`: the same wrapping with no data on success. */
  function SignOut(error: Option<ProviderError>): (r: AuthResult<()>)
    ensures r.Failure? <==> error.Some?
    ensures r.Failure? ==> r.message == TranslateError(error.value.message)
  {
    Wrap(Reply((), error))
  }

  /** A value thrown by the identity-service call; `message` is absent when
      the thrown value has no string `message` property. */
  datatype Thrown = Thrown(message: Option<string>)

  /** How an identity-service call ended: with a reply, or by throwing. */
  datatype Call<D> = Returned(reply: Reply<D>) | Threw(thrown: Thrown)

  /** How the promise returned by an async handler settles. */
  datatype Settled<T> = Resolved(value: T) | Rejected

  /** `signInUser` as written: the catch block hands the thrown value to
      `translateError`, whose `message.includes(…)` itself throws when the
      thrown value carries no string message, so the promise rejects. */
  function SignInUserAsWritten<D>(call: Call<D>): (r: Settled<AuthResult<D>>)
    ensures r.Rejected? <==> call.Threw? && call.thrown.message.None?
    ensures call.Returned? ==> r == Resolved(Wrap(call.reply))
    ensures call.Threw? && call.thrown.message.Some? ==>
      r == Resolved(Failure(TranslateError(call.thrown.message.value)))
  {
    match call
    case Returned(reply) => Resolved(Wrap(reply))
    case Threw(Thrown(Some(m))) => Resolved(Failure(TranslateError(m)))
    case Threw(Thrown(None)) => Rejected
  }

  /** A thrown value without a message escapes the as-written `signInUser`. */
  lemma SignInUserEscapes()
    ensures SignInUserAsWritten<()>(Threw(Thrown(None))) == Rejected
  {
  }

  /** `signInUser` as intended: every outcome, thrown or returned, becomes a
      result; a thrown value without a message is translated as the empty
      text. */
  function SignInUser<D>(call: Call<D>): (r: AuthResult<D>)
    ensures r.Failure? <==> call.Threw? || call.reply.error.Some?
    ensures r.Failure? ==> r.message != []
    ensures call.Returned? ==> r == Wrap(call.reply)
    ensures call.Threw? ==> r.message == TranslateError(call.thrown.message.GetOr(""))
  {
    match call
    case Returned(reply) => Wrap(reply)
    case Threw(t) => Failure(TranslateError(t.message.GetOr("")))
  }

  /** The intended `signInUser` agrees with the written one wherever the
      written one settles with a result. */
  lemma SignInUserAgrees<D>(call: Call<D>)
    ensures SignInUserAsWritten(call).Resolved? ==> SignInUserAsWritten(call).value == SignInUser(call)
  {
  }

  // ---------------------------------------------------------------------
  // Session store
  // ---------------------------------------------------------------------

  /** The provider's `session` value: `undefined` before any callback, then
      whatever the callback delivered (`null` or a session). */
  datatype SessionSlot<S> = Undefined | Null | Present(session: S)

  /** The value a callback stores for the session it delivers. */
  function SlotOf<S>(delivered: Option<S>): (slot: SessionSlot<S>)
    ensures slot != Undefined
    ensures slot.Present? <==> delivered.Some?
    ensures delivered.Some? ==> slot.session == delivered.value
  {
    match delivered
    case Some(s) => Present(s)
    case None => Null
  }

  /** The pair of values the provider keeps. */
  datatype StoreState<S> = StoreState(session: SessionSlot<S>, loading: bool)

  /** `useState(undefined)` and `useState(true)`. */
  function InitialStore<S>(): StoreState<S> {
    StoreState(Undefined, true)
  }

  /** What both callbacks do: store the delivered session, stop loading. */
  function Deliver<S>(st: StoreState<S>, delivered: Option<S>): (st': StoreState<S>)
    ensures !st'.loading && st'.session == SlotOf(delivered)
  {
    StoreState(SlotOf(delivered), false)
  }

  /** The store after a sequence of callbacks, oldest first. */
  function Replay<S>(deliveries: seq<Option<S>>): (st: StoreState<S>)
    ensures st.loading <==> deliveries == []
  {
    if deliveries == [] then InitialStore()
    else Deliver(Replay(deliveries[..|deliveries| - 1]), deliveries[|deliveries| - 1])
  }

  /** The store is loading exactly until the first callback, and afterwards
      holds the session the latest callback delivered. */
  lemma ReplaySettles<S>(deliveries: seq<Option<S>>)
    ensures Replay(deliveries).loading <==> deliveries == []
    ensures deliveries == [] ==> Replay(deliveries).session == Undefined
    ensures deliveries != [] ==> Replay(deliveries).session == SlotOf(deliveries[|deliveries| - 1])
  {
  }

  /** Once the store has stopped loading, no later callback makes it load again. */
  lemma LoadingNeverReturns<S>(earlier: seq<Option<S>>, later: seq<Option<S>>)
    requires !Replay(earlier).loading
    ensures !Replay(earlier + later).loading
  {
    ReplaySettles(earlier);
    ReplaySettles(earlier + later);
  }

  /** The provider component: its session store and the children gate. */
  class AuthProvider<S> {
    var session: SessionSlot<S>
    var loading: bool

    function State(): StoreState<S>
      reads this
    {
      StoreState(session, loading)
    }

    constructor ()
      ensures State() == InitialStore()
    {
      session := Undefined;
      loading := true;
    }

    /** The `getSession().then(…)` and `onAuthStateChange(…)` callbacks,
        which behave the same: `setSession(session)` then `setLoading(false)`. */
    method Receive(delivered: Option<S>)
      modifies this
      ensures State() == Deliver(old(State()), delivered)
      ensures !loading
    {
      session := SlotOf(delivered);
      loading := false;
    }

    /** `{!loading && children}`: the subtree is rendered only once the store
        has stopped loading. */
    function Render<C>(children: C): (shown: Option<C>)
      reads this
      ensures shown.Some? <==> !loading
      ensures shown.Some? ==> shown.value == children
    {
      if loading then None else Some(children)
    }
  }
}
