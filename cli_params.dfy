/**
 * parse_args: binds the stack parameters given on the command line to the
 * keys declared under SenzaInfo.Parameters, positionally or as KEY=VALUE,
 * then fills what is left from the declared defaults.
 */
module CliParams {
  import opened Wrappers
  import opened CliText

  /** One declared parameter: its key and its Default, already rendered (None when it has none). */
  datatype Decl = Decl(key: string, default: Option<string>)

  /** The usage errors parse_args raises, in the order it checks for them. */
  datatype UsageError =
    | PositionalAfterKeyword
    | TooManyParameters
    | UnrecognizedKeyword(key: string)
    | SpecifiedMultipleTimes(key: string)
    | MissingParameter(key: string)

  /**
   * What the first loop leaves: the bound value of every declared key, its
   * default, the order in which keys were first declared (the iteration
   * order of the defaults dictionary) and whether a keyword was seen.
   */
  datatype Bound = Bound(paras: map<string, Option<string>>, defaults: map<string, Option<string>>,
                         order: seq<string>, seenKeyword: bool)

  type Values = map<string, Option<string>>

  function Keys(decls: seq<Decl>): set<string>
  {
    set i | 0 <= i < |decls| :: decls[i].key
  }

  predicate Covers(b: Bound, keys: set<string>)
  {
    && b.paras.Keys == keys && b.defaults.Keys == keys
    && (forall k | k in b.order :: k in keys) && (forall k | k in keys :: k in b.order)
  }

  /** One declaration `d` at index `i`: reset its key, record its default, bind the i-th argument if positional. */
  function Declare(b: Bound, d: Decl, i: nat, params: seq<string>): Result<Bound, UsageError>
  {
    var order := if d.key in b.defaults then b.order else b.order + [d.key];
    var paras := b.paras[d.key := None];
    var defaults := b.defaults[d.key := d.default];
    if i < |params| && '=' in params[i] then Success(Bound(paras, defaults, order, true))
    else if i < |params| then
      if b.seenKeyword then Failure(PositionalAfterKeyword)
      else Success(Bound(paras[d.key := Some(params[i])], defaults, order, false))
    else Success(Bound(paras, defaults, order, b.seenKeyword))
  }

  /** The first loop over the declarations. */
  function Positional(decls: seq<Decl>, params: seq<string>): (r: Result<Bound, UsageError>)
    ensures r.Success? ==> Covers(r.value, Keys(decls))
  {
    if decls == [] then Success(Bound(map[], map[], [], false))
    else
      var init := decls[..|decls| - 1];
      assert Keys(decls) == Keys(init) + {decls[|decls| - 1].key} by {
        assert forall i | 0 <= i < |init| :: init[i] == decls[i];
      }
      var b :- Positional(init, params);
      Declare(b, decls[|decls| - 1], |decls| - 1, params)
  }

  function KeyOf(p: string): string
    requires '=' in p
  {
    SplitFirst(p, '=').0
  }

  function ValueOf(p: string): string
    requires '=' in p
  {
    SplitFirst(p, '=').1
  }

  /** One argument of the keyword loop. */
  function KeywordStep(paras: Values, p: string): Result<Values, UsageError>
  {
    if '=' in p then
      var key := KeyOf(p);
      if key !in paras then Failure(UnrecognizedKeyword(key))
      else if paras[key].Some? then Failure(SpecifiedMultipleTimes(key))
      else Success(paras[key := Some(ValueOf(p))])
    else Success(paras)
  }

  /** The keyword loop over all arguments. */
  function Keywords(params: seq<string>, paras: Values): (r: Result<Values, UsageError>)
    ensures r.Success? ==> r.value.Keys == paras.Keys
  {
    if params == [] then Success(paras)
    else
      var p :- Keywords(params[..|params| - 1], paras);
      KeywordStep(p, params[|params| - 1])
  }

  /** Python's `value or default` on an optional string: None and "" are falsy. */
  function Filled(value: Option<string>, default: Option<string>): Option<string>
  {
    if value.Some? && value.value != "" then value else default
  }

  /** The last loop: every key in `order` takes its value or its default, or parse_args fails. */
  function Fill(order: seq<string>, paras: Values, defaults: Values): (r: Result<map<string, string>, UsageError>)
    requires forall k | k in order :: k in paras && k in defaults
    ensures r.Success? <==> forall k | k in order :: Filled(paras[k], defaults[k]).Some?
    ensures r.Success? ==> (forall k | k in order :: k in r.value && Filled(paras[k], defaults[k]) == Some(r.value[k]))
                           && (forall k | k in r.value :: k in order)
    ensures r.Failure? ==> r.error.MissingParameter? && r.error.key in order
                           && Filled(paras[r.error.key], defaults[r.error.key]).None?
  {
    if order == [] then Success(map[])
    else
      var init := order[..|order| - 1];
      var key := order[|order| - 1];
      assert forall k | k in order :: k in init || k == key;
      var m :- Fill(init, paras, defaults);
      var v := Filled(paras[key], defaults[key]);
      if v.None? then Failure(MissingParameter(key)) else Success(m[key := v.value])
  }

  /** parse_args as a function of the declarations and the arguments. */
  function BindArguments(decls: seq<Decl>, params: seq<string>): Result<map<string, string>, UsageError>
  {
    var b :- Positional(decls, params);
    if |b.paras| < |params| then Failure(TooManyParameters)
    else
      var paras :- if b.seenKeyword then Keywords(params, b.paras) else Success(b.paras);
      Fill(b.order, paras, b.defaults)
  }

  /** parse_args: the three loops of the source, in order. */
  method ParseArgs(decls: seq<Decl>, params: seq<string>) returns (res: Result<map<string, string>, UsageError>)
    ensures res == BindArguments(decls, params)
  {
    var b := DeclareAll(decls, params);
    if b.Failure? {
      return Failure(b.error);
    }
    var bound := b.value;
    if |bound.paras| < |params| {
      return Failure(TooManyParameters);
    }
    var paras := bound.paras;
    if bound.seenKeyword {
      var kw := BindKeywords(params, paras);
      if kw.Failure? {
        return Failure(kw.error);
      }
      paras := kw.value;
    }
    res := FillDefaults(bound.order, paras, bound.defaults);
  }

  /** The first loop: declare every key, binding positional arguments by index. */
  method DeclareAll(decls: seq<Decl>, params: seq<string>) returns (res: Result<Bound, UsageError>)
    ensures res == Positional(decls, params)
  {
    var paras: Values := map[];
    var defaults: Values := map[];
    var order: seq<string> := [];
    var seenKeyword := false;
    var i := 0;
    while i < |decls|
      invariant 0 <= i <= |decls|
      invariant Positional(decls[..i], params) == Success(Bound(paras, defaults, order, seenKeyword))
    {
      assert decls[..i + 1][..i] == decls[..i];
      var d := decls[i];
      if d.key !in defaults {
        order := order + [d.key];
      }
      paras := paras[d.key := None];
      defaults := defaults[d.key := d.default];
      if i < |params| {
        if '=' in params[i] {
          seenKeyword := true;
        } else {
          if seenKeyword {
            PositionalFails(decls, params, i + 1);
            return Failure(PositionalAfterKeyword);
          }
          paras := paras[d.key := Some(params[i])];
        }
      }
      i := i + 1;
    }
    assert decls[..i] == decls;
    return Success(Bound(paras, defaults, order, seenKeyword));
  }

  /** The keyword loop: split every KEY=VALUE argument on its first '=' and bind it once. */
  method BindKeywords(params: seq<string>, bound: Values) returns (res: Result<Values, UsageError>)
    ensures res == Keywords(params, bound)
  {
    var paras := bound;
    var j := 0;
    while j < |params|
      invariant 0 <= j <= |params|
      invariant Keywords(params[..j], bound) == Success(paras)
    {
      assert params[..j + 1][..j] == params[..j];
      var p := params[j];
      if '=' in p {
        var (key, value) := SplitFirst(p, '=');
        if key !in paras {
          KeywordsFail(params, bound, j + 1);
          return Failure(UnrecognizedKeyword(key));
        }
        if paras[key].Some? {
          KeywordsFail(params, bound, j + 1);
          return Failure(SpecifiedMultipleTimes(key));
        }
        paras := paras[key := Some(value)];
      }
      j := j + 1;
    }
    assert params[..j] == params;
    return Success(paras);
  }

  /** The last loop: every declared key takes its value or its default; a key with neither is missing. */
  method FillDefaults(order: seq<string>, paras: Values, defaults: Values) returns (res: Result<map<string, string>, UsageError>)
    requires forall k | k in order :: k in paras && k in defaults
    ensures res == Fill(order, paras, defaults)
  {
    var args: map<string, string> := map[];
    var k := 0;
    while k < |order|
      invariant 0 <= k <= |order|
      invariant Fill(order[..k], paras, defaults) == Success(args)
    {
      assert order[..k + 1][..k] == order[..k];
      var key := order[k];
      var value := Filled(paras[key], defaults[key]);
      if value.None? {
        FillFails(order, paras, defaults, k + 1);
        return Failure(MissingParameter(key));
      }
      args := args[key := value.value];
      k := k + 1;
    }
    assert order[..k] == order;
    return Success(args);
  }

  /** Once the first loop has failed on a prefix, it fails on the whole list with the same error. */
  lemma {:induction false} PositionalFails(decls: seq<Decl>, params: seq<string>, n: nat)
    requires n <= |decls| && Positional(decls[..n], params).Failure?
    ensures Positional(decls, params) == Positional(decls[..n], params)
    decreases |decls| - n
  {
    if n < |decls| {
      assert decls[..n + 1][..n] == decls[..n];
      PositionalFails(decls, params, n + 1);
    } else {
      assert decls[..n] == decls;
    }
  }

  lemma {:induction false} KeywordsFail(params: seq<string>, paras: Values, n: nat)
    requires n <= |params| && Keywords(params[..n], paras).Failure?
    ensures Keywords(params, paras) == Keywords(params[..n], paras)
    decreases |params| - n
  {
    if n < |params| {
      assert params[..n + 1][..n] == params[..n];
      KeywordsFail(params, paras, n + 1);
    } else {
      assert params[..n] == params;
    }
  }

  lemma {:induction false} FillFails(order: seq<string>, paras: Values, defaults: Values, n: nat)
    requires forall k | k in order :: k in paras && k in defaults
    requires n <= |order| && Fill(order[..n], paras, defaults).Failure?
    ensures Fill(order, paras, defaults) == Fill(order[..n], paras, defaults)
    decreases |order| - n
  {
    if n < |order| {
      assert order[..n + 1][..n] == order[..n];
      FillFails(order, paras, defaults, n + 1);
    } else {
      assert order[..n] == order;
    }
  }

  // Properties of parse_args

  /** Among the first `n` arguments, a keyword comes before a positional one. */
  predicate KeywordThenPositional(params: seq<string>, n: int)
  {
    exists i, j | 0 <= i < j < n && j < |params| :: '=' in params[i] && '=' !in params[j]
  }

  /** One of the first `n` arguments is a keyword. */
  predicate KeywordAmong(params: seq<string>, n: int)
  {
    exists i | 0 <= i < n && i < |params| :: '=' in params[i]
  }

  /** Index of the last declaration of `k`, or -1 when there is none. */
  function LastDecl(decls: seq<Decl>, k: string): (r: int)
    ensures -1 <= r < |decls|
    ensures r >= 0 ==> decls[r].key == k && forall j | r < j < |decls| :: decls[j].key != k
    ensures r == -1 ==> forall j | 0 <= j < |decls| :: decls[j].key != k
  {
    if decls == [] then -1
    else if decls[|decls| - 1].key == k then |decls| - 1
    else LastDecl(decls[..|decls| - 1], k)
  }

  /** The argument the first loop leaves bound to `k`: the one at its last declaration, unless that is a keyword or missing. */
  function PositionalValue(decls: seq<Decl>, params: seq<string>, k: string): Option<string>
  {
    var i := LastDecl(decls, k);
    if 0 <= i < |params| && '=' !in params[i] then Some(params[i]) else None
  }

  /** The default in force for `k`: that of its last declaration. */
  function DefaultOf(decls: seq<Decl>, k: string): Option<string>
  {
    var i := LastDecl(decls, k);
    if i >= 0 then decls[i].default else None
  }

  lemma PrefixStep(params: seq<string>, n: int)
    requires 1 <= n
    ensures KeywordThenPositional(params, n)
        <==> KeywordThenPositional(params, n - 1) || (n - 1 < |params| && '=' !in params[n - 1] && KeywordAmong(params, n - 1))
    ensures KeywordAmong(params, n) <==> KeywordAmong(params, n - 1) || (n - 1 < |params| && '=' in params[n - 1])
  {
    if KeywordThenPositional(params, n) {
      var i, j :| 0 <= i < j < n && j < |params| && '=' in params[i] && '=' !in params[j];
      if j == n - 1 {
        assert KeywordAmong(params, n - 1);
      }
    }
  }

  /** Declaring one more key does not change what another key is bound to or defaults to. */
  lemma OtherKeyUnchanged(decls: seq<Decl>, params: seq<string>, k: string)
    requires decls != [] && decls[|decls| - 1].key != k
    ensures PositionalValue(decls, params, k) == PositionalValue(decls[..|decls| - 1], params, k)
    ensures DefaultOf(decls, k) == DefaultOf(decls[..|decls| - 1], k)
  {
    var i := LastDecl(decls, k);
    if i >= 0 {
      assert decls[..|decls| - 1][i] == decls[i];
    }
  }

  lemma KeysSnoc(decls: seq<Decl>)
    requires decls != []
    ensures Keys(decls) == Keys(decls[..|decls| - 1]) + {decls[|decls| - 1].key}
  {
    var init := decls[..|decls| - 1];
    assert forall i | 0 <= i < |init| :: init[i] == decls[i];
  }

  lemma DeclareValues(b: Bound, d: Decl, i: nat, params: seq<string>)
    ensures var r := Declare(b, d, i, params);
      r.Success? ==>
        && r.value.paras == b.paras[d.key := if i < |params| && '=' !in params[i] then Some(params[i]) else None]
        && r.value.defaults == b.defaults[d.key := d.default]
  {
  }

  /** The first loop fails exactly when a positional argument follows a keyword among the declared positions. */
  lemma {:induction false} PositionalFailure(decls: seq<Decl>, params: seq<string>)
    ensures var r := Positional(decls, params);
      && (r.Failure? <==> KeywordThenPositional(params, |decls|))
      && (r.Failure? ==> r.error == PositionalAfterKeyword)
      && (r.Success? ==> r.value.seenKeyword == KeywordAmong(params, |decls|))
  {
    if decls != [] {
      var n := |decls|;
      PositionalFailure(decls[..n - 1], params);
      PrefixStep(params, n);
    }
  }

  /** After the first loop every declared key holds its positional argument, if any, and its last default. */
  lemma {:induction false} PositionalValues(decls: seq<Decl>, params: seq<string>)
    ensures var r := Positional(decls, params);
      r.Success? ==> forall k | k in Keys(decls) ::
        r.value.paras[k] == PositionalValue(decls, params, k) && r.value.defaults[k] == DefaultOf(decls, k)
  {
    if decls != [] {
      var n := |decls|;
      var init := decls[..n - 1];
      var d := decls[n - 1];
      PositionalValues(init, params);
      var r := Positional(decls, params);
      if r.Success? {
        var b := Positional(init, params).value;
        assert r == Declare(b, d, n - 1, params);
        DeclareValues(b, d, n - 1, params);
        forall k | k in Keys(decls)
          ensures r.value.paras[k] == PositionalValue(decls, params, k) && r.value.defaults[k] == DefaultOf(decls, k)
        {
          if k != d.key {
            KeysSnoc(decls);
            OtherKeyUnchanged(decls, params, k);
          }
        }
      }
    }
  }

  /** The key a keyword argument names. */
  predicate Names(p: string, k: string)
  {
    '=' in p && KeyOf(p) == k
  }

  predicate Named(params: seq<string>, k: string)
  {
    exists j | 0 <= j < |params| :: Names(params[j], k)
  }

  predicate NamedTwice(params: seq<string>, k: string)
  {
    exists i, j | 0 <= i < j < |params| :: Names(params[i], k) && Names(params[j], k)
  }

  /** The value the last keyword argument naming `k` gives it. */
  function KeywordValue(params: seq<string>, k: string): Option<string>
  {
    if params == [] then None
    else if Names(params[|params| - 1], k) then Some(ValueOf(params[|params| - 1]))
    else KeywordValue(params[..|params| - 1], k)
  }

  /** The keyword loop goes through when every keyword names a declared, still unbound key, once. */
  predicate KeywordsFit(params: seq<string>, paras: Values)
  {
    && (forall j | 0 <= j < |params| && '=' in params[j] :: KeyOf(params[j]) in paras && paras[KeyOf(params[j])].None?)
    && (forall i, j | 0 <= i < j < |params| && '=' in params[i] && '=' in params[j] :: KeyOf(params[i]) != KeyOf(params[j]))
  }

  lemma NamedSnoc(params: seq<string>, k: string)
    requires params != []
    ensures Named(params, k) <==> Named(params[..|params| - 1], k) || Names(params[|params| - 1], k)
    ensures NamedTwice(params, k) <==> NamedTwice(params[..|params| - 1], k) || (Names(params[|params| - 1], k) && Named(params[..|params| - 1], k))
  {
    NamedOnceSnoc(params, k);
    NamedTwiceSnoc(params, k);
  }

  lemma NamedOnceSnoc(params: seq<string>, k: string)
    requires params != []
    ensures Named(params, k) <==> Named(params[..|params| - 1], k) || Names(params[|params| - 1], k)
  {
    var n := |params|;
    var init := params[..n - 1];
    if Named(params, k) {
      var j :| 0 <= j < n && Names(params[j], k);
      if j < n - 1 {
        assert init[j] == params[j];
      }
    }
    if Named(init, k) {
      var j :| 0 <= j < n - 1 && Names(init[j], k);
      assert init[j] == params[j];
    }
  }

  lemma NamedTwiceSnoc(params: seq<string>, k: string)
    requires params != []
    ensures NamedTwice(params, k) <==> NamedTwice(params[..|params| - 1], k) || (Names(params[|params| - 1], k) && Named(params[..|params| - 1], k))
  {
    if NamedTwice(params, k) {
      NamedTwiceSplit(params, k);
    }
    if NamedTwice(params[..|params| - 1], k) {
      NamedTwiceInit(params, k);
    }
    if Names(params[|params| - 1], k) && Named(params[..|params| - 1], k) {
      NamedTwiceLast(params, k);
    }
  }

  /** A key named twice is named twice before the last argument, or by the last one and once before it. */
  lemma NamedTwiceSplit(params: seq<string>, k: string)
    requires params != [] && NamedTwice(params, k)
    ensures NamedTwice(params[..|params| - 1], k) || (Names(params[|params| - 1], k) && Named(params[..|params| - 1], k))
  {
    var n := |params|;
    var init := params[..n - 1];
    var i, j :| 0 <= i < j < n && Names(params[i], k) && Names(params[j], k);
    assert init[i] == params[i];
    if j < n - 1 {
      assert init[j] == params[j];
      assert Names(init[i], k) && Names(init[j], k);
    } else {
      assert Names(init[i], k);
    }
  }

  lemma NamedTwiceInit(params: seq<string>, k: string)
    requires params != [] && NamedTwice(params[..|params| - 1], k)
    ensures NamedTwice(params, k)
  {
    var init := params[..|params| - 1];
    var i, j :| 0 <= i < j < |init| && Names(init[i], k) && Names(init[j], k);
    assert init[i] == params[i] && init[j] == params[j];
  }

  lemma NamedTwiceLast(params: seq<string>, k: string)
    requires params != [] && Names(params[|params| - 1], k) && Named(params[..|params| - 1], k)
    ensures NamedTwice(params, k)
  {
    var init := params[..|params| - 1];
    var i :| 0 <= i < |init| && Names(init[i], k);
    assert init[i] == params[i];
    assert Names(params[i], k) && Names(params[|params| - 1], k);
  }

  lemma KeywordsFitSnoc(params: seq<string>, paras: Values)
    requires params != []
    ensures var init, p := params[..|params| - 1], params[|params| - 1];
      var fits := '=' in p ==> KeyOf(p) in paras && paras[KeyOf(p)].None? && !Named(init, KeyOf(p));
      KeywordsFit(params, paras) <==> KeywordsFit(init, paras) && fits
  {
    var n := |params|;
    var init := params[..n - 1];
    var p := params[n - 1];
    assert forall j | 0 <= j < n - 1 :: init[j] == params[j];
  }

  /** After the keyword loop, every key named by a keyword holds that keyword's value and the others are untouched. */
  lemma {:induction false} KeywordsValues(params: seq<string>, paras: Values)
    ensures var r := Keywords(params, paras);
      r.Success? ==> forall k | k in paras :: r.value[k] == if Named(params, k) then KeywordValue(params, k) else paras[k]
  {
    if params != [] {
      var n := |params|;
      var init := params[..n - 1];
      var p := params[n - 1];
      KeywordsValues(init, paras);
      var r := Keywords(params, paras);
      if r.Success? {
        var q := Keywords(init, paras).value;
        assert r == KeywordStep(q, p);
        forall k | k in paras ensures r.value[k] == if Named(params, k) then KeywordValue(params, k) else paras[k] {
          NamedSnoc(params, k);
        }
      }
    }
  }

  /** The keyword loop goes through exactly when the keywords fit the declared, unbound keys. */
  lemma {:induction false} KeywordsSucceed(params: seq<string>, paras: Values)
    ensures Keywords(params, paras).Success? <==> KeywordsFit(params, paras)
  {
    if params != [] {
      var n := |params|;
      var init := params[..n - 1];
      var p := params[n - 1];
      KeywordsSucceed(init, paras);
      KeywordsValues(init, paras);
      KeywordsFitSnoc(params, paras);
      if Keywords(init, paras).Success? && '=' in p {
        var q := Keywords(init, paras).value;
        assert KeyOf(p) in paras ==> q[KeyOf(p)] == if Named(init, KeyOf(p)) then KeywordValue(init, KeyOf(p)) else paras[KeyOf(p)];
        if Named(init, KeyOf(p)) {
          KeywordValueSome(init, KeyOf(p));
        }
      }
    }
  }

  lemma {:induction false} KeywordValueSome(params: seq<string>, k: string)
    requires Named(params, k)
    ensures KeywordValue(params, k).Some?
  {
    var n := |params|;
    if !Names(params[n - 1], k) {
      NamedSnoc(params, k);
      KeywordValueSome(params[..n - 1], k);
    }
  }

  /** The keyword loop fails only on an undeclared key or on a key bound twice. */
  lemma {:induction false} KeywordsErrors(params: seq<string>, paras: Values)
    ensures var r := Keywords(params, paras);
      && (r.Failure? ==> r.error.UnrecognizedKeyword? || r.error.SpecifiedMultipleTimes?)
      && (r.Failure? && r.error.UnrecognizedKeyword? ==> Named(params, r.error.key) && r.error.key !in paras)
      && (r.Failure? && r.error.SpecifiedMultipleTimes? ==>
            Named(params, r.error.key) && r.error.key in paras && (paras[r.error.key].Some? || NamedTwice(params, r.error.key)))
  {
    if params != [] {
      var n := |params|;
      var init := params[..n - 1];
      var p := params[n - 1];
      KeywordsErrors(init, paras);
      KeywordsValues(init, paras);
      var r := Keywords(params, paras);
      if r.Failure? {
        NamedSnoc(params, r.error.key);
        if Keywords(init, paras).Success? {
          assert Names(p, r.error.key);
        }
      }
    }
  }

  /** What the command line supplies for `k`: a keyword if one names it, otherwise its positional argument. */
  function Supplied(decls: seq<Decl>, params: seq<string>, k: string): Option<string>
  {
    if Named(params, k) then KeywordValue(params, k) else PositionalValue(decls, params, k)
  }

  lemma {:induction false} KeysBound(decls: seq<Decl>)
    ensures |Keys(decls)| <= |decls|
  {
    if decls != [] {
      var init := decls[..|decls| - 1];
      assert Keys(decls) == Keys(init) + {decls[|decls| - 1].key} by {
        assert forall i | 0 <= i < |init| :: init[i] == decls[i];
      }
      KeysBound(init);
    }
  }

  /** Without a keyword among the declared positions, an accepted argument list holds no keyword at all. */
  lemma NoKeywordNamed(decls: seq<Decl>, params: seq<string>, k: string)
    requires !KeywordAmong(params, |decls|) && |params| <= |Keys(decls)|
    ensures !Named(params, k)
  {
    KeysBound(decls);
    forall j | 0 <= j < |params| ensures !Names(params[j], k) {
      assert j < |decls|;
    }
  }

  /** parse_args either binds every declared key or reports one of its five errors, as characterised below. */
  lemma ParseArgsOutcome(decls: seq<Decl>, params: seq<string>)
    ensures var r := BindArguments(decls, params);
      && (r == Failure(PositionalAfterKeyword) <==> KeywordThenPositional(params, |decls|))
      && (r == Failure(TooManyParameters) <==> !KeywordThenPositional(params, |decls|) && |Keys(decls)| < |params|)
      && (r.Success? ==> r.value.Keys == Keys(decls))
      && (r.Success? ==> forall k | k in Keys(decls) :: Filled(Supplied(decls, params, k), DefaultOf(decls, k)) == Some(r.value[k]))
      && (r.Failure? && r.error.UnrecognizedKeyword? ==> Named(params, r.error.key) && r.error.key !in Keys(decls))
      && (r.Failure? && r.error.SpecifiedMultipleTimes? ==>
            Named(params, r.error.key) && r.error.key in Keys(decls)
            && (PositionalValue(decls, params, r.error.key).Some? || NamedTwice(params, r.error.key)))
      && (r.Failure? && r.error.MissingParameter? ==>
            r.error.key in Keys(decls) && Filled(Supplied(decls, params, r.error.key), DefaultOf(decls, r.error.key)).None?)
  {
    PositionalFailure(decls, params);
    PositionalValues(decls, params);
    var r := BindArguments(decls, params);
    match Positional(decls, params)
    case Failure(_) =>
    case Success(b) =>
      assert |b.paras| == |Keys(decls)| by {
        assert b.paras.Keys == Keys(decls);
      }
      if |b.paras| >= |params| {
        KeywordsSucceed(params, b.paras);
        KeywordsValues(params, b.paras);
        KeywordsErrors(params, b.paras);
        if !b.seenKeyword {
          forall k ensures !Named(params, k) {
            NoKeywordNamed(decls, params, k);
          }
        }
        var paras := if b.seenKeyword then Keywords(params, b.paras) else Success(b.paras);
        if paras.Success? {
          forall k | k in Keys(decls) ensures paras.value[k] == Supplied(decls, params, k) {
          }
        }
      }
  }
}
