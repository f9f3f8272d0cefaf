/**
 * The parse_args cases of the command-line tests, worked through the model:
 * a template declaring MyParam and ExtraParam without defaults, and one
 * declaring ImageVersion, ExtraParam and DefParam (default "DefValue").
 */
module CliTrace {
  import opened Wrappers
  import opened CliText
  import opened CliParams

  /** Two keys without defaults, as MyParam and ExtraParam in the tests. */
  function TwoKeys(k0: string, k1: string): seq<Decl>
  {
    [Decl(k0, None), Decl(k1, None)]
  }

  /** Two keys without defaults and a third with one, as ImageVersion, ExtraParam and DefParam. */
  function ThreeKeys(k0: string, k1: string, k2: string, dv: string): seq<Decl>
  {
    [Decl(k0, None), Decl(k1, None), Decl(k2, Some(dv))]
  }

  const Start := Bound(map[], map[], [], false)

  /** The first loop over one more declaration. */
  lemma PositionalSnoc(decls: seq<Decl>, d: Decl, params: seq<string>, b: Bound, r: Result<Bound, UsageError>)
    requires Positional(decls, params) == Success(b) && Declare(b, d, |decls|, params) == r
    ensures Positional(decls + [d], params) == r
  {
    assert (decls + [d])[..|decls|] == decls;
  }

  /** The first loop over two declarations, from the result of each step. */
  lemma PositionalSteps2(d0: Decl, d1: Decl, params: seq<string>, b1: Bound, r: Result<Bound, UsageError>)
    requires Declare(Start, d0, 0, params) == Success(b1) && Declare(b1, d1, 1, params) == r
    ensures Positional([d0, d1], params) == r
  {
    assert Positional([], params) == Success(Start);
    PositionalSnoc([], d0, params, Start, Success(b1));
    assert [] + [d0] == [d0];
    PositionalSnoc([d0], d1, params, b1, r);
    assert [d0] + [d1] == [d0, d1];
  }

  /** The first loop over three declarations, from the result of each step. */
  lemma PositionalSteps3(d0: Decl, d1: Decl, d2: Decl, params: seq<string>, b1: Bound, b2: Bound, b3: Bound)
    requires Declare(Start, d0, 0, params) == Success(b1) && Declare(b1, d1, 1, params) == Success(b2)
    requires Declare(b2, d2, 2, params) == Success(b3)
    ensures Positional([d0, d1, d2], params) == Success(b3)
  {
    PositionalSteps2(d0, d1, params, b1, Success(b2));
    PositionalSnoc([d0, d1], d2, params, b2, Success(b3));
    assert [d0, d1] + [d2] == [d0, d1, d2];
  }

  /** A declaration whose argument is positional, before any keyword. */
  lemma DeclarePositional(b: Bound, d: Decl, i: nat, params: seq<string>)
    requires i < |params| && '=' !in params[i] && !b.seenKeyword && d.key !in b.defaults
    ensures Declare(b, d, i, params)
         == Success(Bound(b.paras[d.key := Some(params[i])], b.defaults[d.key := d.default], b.order + [d.key], false))
  {
    assert b.paras[d.key := None][d.key := Some(params[i])] == b.paras[d.key := Some(params[i])];
  }

  /** A declaration whose argument is a keyword. */
  lemma DeclareKeyword(b: Bound, d: Decl, i: nat, params: seq<string>)
    requires i < |params| && '=' in params[i] && d.key !in b.defaults
    ensures Declare(b, d, i, params)
         == Success(Bound(b.paras[d.key := None], b.defaults[d.key := d.default], b.order + [d.key], true))
  {
  }

  /** A declaration with no argument left. */
  lemma DeclareUnbound(b: Bound, d: Decl, i: nat, params: seq<string>)
    requires |params| <= i && d.key !in b.defaults
    ensures Declare(b, d, i, params)
         == Success(Bound(b.paras[d.key := None], b.defaults[d.key := d.default], b.order + [d.key], b.seenKeyword))
  {
  }

  /** A positional argument after a keyword. */
  lemma DeclareAfterKeyword(b: Bound, d: Decl, i: nat, params: seq<string>)
    requires i < |params| && '=' !in params[i] && b.seenKeyword
    ensures Declare(b, d, i, params) == Failure(PositionalAfterKeyword)
  {
  }

  /** parse_args once the first loop has succeeded with `b` and the keyword loop with `paras`. */
  lemma BindSteps(decls: seq<Decl>, params: seq<string>, b: Bound, paras: Values)
    requires Positional(decls, params) == Success(b) && |params| <= |b.paras|
    requires (if b.seenKeyword then Keywords(params, b.paras) else Success(b.paras)) == Success(paras)
    ensures BindArguments(decls, params) == Fill(b.order, paras, b.defaults)
  {
  }

  /** parse_args when the keyword loop fails. */
  lemma BindKeywordsFail(decls: seq<Decl>, params: seq<string>, b: Bound, e: UsageError)
    requires Positional(decls, params) == Success(b) && |params| <= |b.paras|
    requires b.seenKeyword && Keywords(params, b.paras) == Failure(e)
    ensures BindArguments(decls, params) == Failure(e)
  {
  }

  lemma KeywordsPair(p0: string, p1: string, paras: Values)
    ensures Keywords([p0, p1], paras)
         == if KeywordStep(paras, p0).Failure? then KeywordStep(paras, p0) else KeywordStep(KeywordStep(paras, p0).value, p1)
  {
    assert [p0, p1][..1] == [p0];
    KeywordsOne(p0, paras);
  }

  lemma KeywordsOne(p0: string, paras: Values)
    ensures Keywords([p0], paras) == KeywordStep(paras, p0)
  {
    assert [p0][..0] == [];
  }

  lemma FillPair(k0: string, k1: string, paras: Values, defaults: Values)
    requires k0 in paras && k0 in defaults && k1 in paras && k1 in defaults
    ensures var v0, v1 := Filled(paras[k0], defaults[k0]), Filled(paras[k1], defaults[k1]);
      Fill([k0, k1], paras, defaults)
      == if v0.None? then Failure(MissingParameter(k0))
         else if v1.None? then Failure(MissingParameter(k1))
         else Success(map[k0 := v0.value, k1 := v1.value])
  {
    assert [k0, k1][..1] == [k0];
    assert [k0][..0] == [];
  }

  lemma FillTriple(k0: string, k1: string, k2: string, paras: Values, defaults: Values)
    requires k0 in paras && k0 in defaults && k1 in paras && k1 in defaults && k2 in paras && k2 in defaults
    ensures var v0, v1, v2 := Filled(paras[k0], defaults[k0]), Filled(paras[k1], defaults[k1]), Filled(paras[k2], defaults[k2]);
      v0.Some? && v1.Some? && v2.Some? ==>
      Fill([k0, k1, k2], paras, defaults) == Success(map[k0 := v0.value, k1 := v1.value, k2 := v2.value])
  {
    assert [k0, k1, k2][..2] == [k0, k1];
    FillPair(k0, k1, paras, defaults);
  }

  lemma Size2(k0: string, k1: string, a: Option<string>, b: Option<string>)
    requires k0 != k1
    ensures |map[k0 := a, k1 := b]| == 2
  {
  }

  lemma Size3(k0: string, k1: string, k2: string, a: Option<string>, b: Option<string>, c: Option<string>)
    requires k0 != k1 && k0 != k2 && k1 != k2
    ensures |map[k0 := a, k1 := b, k2 := c]| == 3
  {
  }

  lemma SplitAt(p: string, key: string, value: string)
    requires '=' !in key && p == key + "=" + value
    ensures '=' in p && KeyOf(p) == key && ValueOf(p) == value
  {
    assert p[|key|] == '=';
    SplitFirstJoin(key, '=', value);
  }

  /** The first loop over two keys when neither argument is a keyword. */
  lemma TwoPositional(k0: string, k1: string, params: seq<string>)
    requires k0 != k1 && |params| >= 2 && '=' !in params[0] && '=' !in params[1]
    ensures Positional(TwoKeys(k0, k1), params)
         == Success(Bound(map[k0 := Some(params[0]), k1 := Some(params[1])], map[k0 := None, k1 := None], [k0, k1], false))
  {
    var d0, d1 := Decl(k0, None), Decl(k1, None);
    var b1 := Bound(map[k0 := Some(params[0])], map[k0 := None], [k0], false);
    var b2 := Bound(map[k0 := Some(params[0]), k1 := Some(params[1])], map[k0 := None, k1 := None], [k0, k1], false);
    assert Declare(Start, d0, 0, params) == Success(b1) by {
      DeclarePositional(Start, d0, 0, params);
      assert Start.order + [k0] == [k0];
    }
    assert Declare(b1, d1, 1, params) == Success(b2) by {
      DeclarePositional(b1, d1, 1, params);
      assert b1.order + [k1] == [k0, k1];
    }
    assert TwoKeys(k0, k1) == [d0, d1];
    PositionalSteps2(d0, d1, params, b1, Success(b2));
  }

  /** Both parameters given positionally (my-param-value extra-param-value). */
  lemma BothPositional(k0: string, k1: string, v0: string, v1: string)
    requires k0 != k1 && '=' !in v0 && '=' !in v1 && v0 != "" && v1 != ""
    ensures BindArguments(TwoKeys(k0, k1), [v0, v1]) == Success(map[k0 := v0, k1 := v1])
  {
    var paras, defaults := map[k0 := Some(v0), k1 := Some(v1)], map[k0 := None, k1 := None];
    assert BindArguments(TwoKeys(k0, k1), [v0, v1]) == Fill([k0, k1], paras, defaults) by {
      TwoPositional(k0, k1, [v0, v1]);
      BindSteps(TwoKeys(k0, k1), [v0, v1], Bound(paras, defaults, [k0, k1], false), paras);
    }
    FillPair(k0, k1, paras, defaults);
  }

  /** No argument at all: the first declared key is reported missing. */
  lemma NoneGiven(k0: string, k1: string)
    requires k0 != k1
    ensures BindArguments(TwoKeys(k0, k1), []) == Failure(MissingParameter(k0))
  {
    var d0, d1 := Decl(k0, None), Decl(k1, None);
    var b1 := Bound(map[k0 := None], map[k0 := None], [k0], false);
    var b2 := Bound(map[k0 := None, k1 := None], map[k0 := None, k1 := None], [k0, k1], false);
    assert Positional(TwoKeys(k0, k1), []) == Success(b2) by {
      assert Declare(Start, d0, 0, []) == Success(b1) by {
        DeclareUnbound(Start, d0, 0, []);
        assert Start.order + [k0] == [k0];
      }
      assert Declare(b1, d1, 1, []) == Success(b2) by {
        DeclareUnbound(b1, d1, 1, []);
        assert b1.order + [k1] == [k0, k1];
      }
      assert TwoKeys(k0, k1) == [d0, d1];
      PositionalSteps2(d0, d1, [], b1, Success(b2));
    }
    BindSteps(TwoKeys(k0, k1), [], b2, b2.paras);
    FillPair(k0, k1, b2.paras, b2.defaults);
  }

  /** More arguments than keys (p1 p2 p3 p4). */
  lemma TooMany(k0: string, k1: string, params: seq<string>)
    requires k0 != k1 && |params| > 2 && '=' !in params[0] && '=' !in params[1]
    ensures BindArguments(TwoKeys(k0, k1), params) == Failure(TooManyParameters)
  {
    TwoPositional(k0, k1, params);
  }

  /** The first loop over two keys when the first argument is positional and the second a keyword. */
  lemma PositionalKeyword(k0: string, k1: string, params: seq<string>)
    requires k0 != k1 && |params| == 2 && '=' !in params[0] && '=' in params[1]
    ensures Positional(TwoKeys(k0, k1), params)
         == Success(Bound(map[k0 := Some(params[0]), k1 := None], map[k0 := None, k1 := None], [k0, k1], true))
  {
    var d0, d1 := Decl(k0, None), Decl(k1, None);
    var b1 := Bound(map[k0 := Some(params[0])], map[k0 := None], [k0], false);
    var b2 := Bound(map[k0 := Some(params[0]), k1 := None], map[k0 := None, k1 := None], [k0, k1], true);
    assert Declare(Start, d0, 0, params) == Success(b1) by {
      DeclarePositional(Start, d0, 0, params);
      assert Start.order + [k0] == [k0];
    }
    assert Declare(b1, d1, 1, params) == Success(b2) by {
      DeclareKeyword(b1, d1, 1, params);
      assert b1.order + [k1] == [k0, k1];
    }
    assert TwoKeys(k0, k1) == [d0, d1];
    PositionalSteps2(d0, d1, params, b1, Success(b2));
  }

  /** parse_args over two keys, a positional argument then a keyword: only the keyword loop and the last loop are left. */
  lemma PositionalKeywordBind(k0: string, k1: string, params: seq<string>)
    requires k0 != k1 && |params| == 2 && '=' !in params[0] && '=' in params[1]
    ensures var paras := map[k0 := Some(params[0]), k1 := None];
      BindArguments(TwoKeys(k0, k1), params)
      == match Keywords(params, paras)
         case Success(p) => Fill([k0, k1], p, map[k0 := None, k1 := None])
         case Failure(e) => Failure(e)
  {
    var paras := map[k0 := Some(params[0]), k1 := None];
    PositionalKeyword(k0, k1, params);
    Size2(k0, k1, Some(params[0]), None);
  }

  /** Only the first '=' separates key and value (ExtraParam=extra=param=value). */
  lemma KeywordValueWithEquals(k0: string, k1: string, v0: string, v: string)
    requires k0 != k1 && '=' !in v0 && v0 != "" && '=' !in k1 && v != ""
    ensures BindArguments(TwoKeys(k0, k1), [v0, k1 + "=" + v]) == Success(map[k0 := v0, k1 := v])
  {
    var params := [v0, k1 + "=" + v];
    var paras := map[k0 := Some(v0), k1 := Some(v)];
    var defaults := map[k0 := None, k1 := None];
    assert Keywords(params, map[k0 := Some(v0), k1 := None]) == Success(paras) by {
      SplitAt(params[1], k1, v);
      KeywordsPair(params[0], params[1], map[k0 := Some(v0), k1 := None]);
      assert map[k0 := Some(v0), k1 := None][k1 := Some(v)] == paras;
    }
    assert BindArguments(TwoKeys(k0, k1), params) == Fill([k0, k1], paras, defaults) by {
      assert '=' in params[1] by {
        SplitAt(params[1], k1, v);
      }
      PositionalKeywordBind(k0, k1, params);
    }
    assert Fill([k0, k1], paras, defaults) == Success(map[k0 := v0, k1 := v]) by {
      FillPair(k0, k1, paras, defaults);
    }
  }

  /** A keyword that names no declared key (UnknownParam=value). */
  lemma UnknownKeyword(k0: string, k1: string, u: string, v: string)
    requires k0 != k1 && '=' !in u && u != k0 && u != k1
    ensures BindArguments(TwoKeys(k0, k1), [u + "=" + v]) == Failure(UnrecognizedKeyword(u))
  {
    var params := [u + "=" + v];
    var d0, d1 := Decl(k0, None), Decl(k1, None);
    var b1 := Bound(map[k0 := None], map[k0 := None], [k0], true);
    var b2 := Bound(map[k0 := None, k1 := None], map[k0 := None, k1 := None], [k0, k1], true);
    SplitAt(params[0], u, v);
    assert Positional(TwoKeys(k0, k1), params) == Success(b2) by {
      assert Declare(Start, d0, 0, params) == Success(b1) by {
        DeclareKeyword(Start, d0, 0, params);
        assert Start.order + [k0] == [k0];
      }
      assert Declare(b1, d1, 1, params) == Success(b2) by {
        DeclareUnbound(b1, d1, 1, params);
        assert b1.order + [k1] == [k0, k1];
      }
      assert TwoKeys(k0, k1) == [d0, d1];
      PositionalSteps2(d0, d1, params, b1, Success(b2));
    }
    KeywordsOne(params[0], b2.paras);
    BindKeywordsFail(TwoKeys(k0, k1), params, b2, UnrecognizedKeyword(u));
  }

  /** A keyword for a key already bound by position (my-param-value MyParam=param-value-again). */
  lemma PositionalThenKeyword(k0: string, k1: string, v0: string, v: string)
    requires k0 != k1 && '=' !in v0 && '=' !in k0
    ensures BindArguments(TwoKeys(k0, k1), [v0, k0 + "=" + v]) == Failure(SpecifiedMultipleTimes(k0))
  {
    var params := [v0, k0 + "=" + v];
    SplitAt(params[1], k0, v);
    PositionalKeywordBind(k0, k1, params);
    KeywordsPair(params[0], params[1], map[k0 := Some(v0), k1 := None]);
  }

  /** The same keyword twice (MyParam=my-param-value MyParam=param-value-again). */
  lemma KeywordTwice(k0: string, k1: string, v: string, w: string)
    requires k0 != k1 && '=' !in k0
    ensures BindArguments(TwoKeys(k0, k1), [k0 + "=" + v, k0 + "=" + w]) == Failure(SpecifiedMultipleTimes(k0))
  {
    var params := [k0 + "=" + v, k0 + "=" + w];
    var d0, d1 := Decl(k0, None), Decl(k1, None);
    var b1 := Bound(map[k0 := None], map[k0 := None], [k0], true);
    var b2 := Bound(map[k0 := None, k1 := None], map[k0 := None, k1 := None], [k0, k1], true);
    SplitAt(params[0], k0, v);
    SplitAt(params[1], k0, w);
    assert Positional(TwoKeys(k0, k1), params) == Success(b2) by {
      assert Declare(Start, d0, 0, params) == Success(b1) by {
        DeclareKeyword(Start, d0, 0, params);
        assert Start.order + [k0] == [k0];
      }
      assert Declare(b1, d1, 1, params) == Success(b2) by {
        DeclareKeyword(b1, d1, 1, params);
        assert b1.order + [k1] == [k0, k1];
      }
      assert TwoKeys(k0, k1) == [d0, d1];
      PositionalSteps2(d0, d1, params, b1, Success(b2));
    }
    KeywordsPair(params[0], params[1], b2.paras);
    BindKeywordsFail(TwoKeys(k0, k1), params, b2, SpecifiedMultipleTimes(k0));
  }

  /** A positional argument after a keyword (MyParam=my-param-value positional). */
  lemma KeywordThenPositionalArg(k0: string, k1: string, v: string, p: string)
    requires k0 != k1 && '=' !in p
    ensures BindArguments(TwoKeys(k0, k1), [k0 + "=" + v, p]) == Failure(PositionalAfterKeyword)
  {
    var params := [k0 + "=" + v, p];
    var d0, d1 := Decl(k0, None), Decl(k1, None);
    var b1 := Bound(map[k0 := None], map[k0 := None], [k0], true);
    assert params[0][|k0|] == '=';
    assert Declare(Start, d0, 0, params) == Success(b1) by {
      DeclareKeyword(Start, d0, 0, params);
      assert Start.order + [k0] == [k0];
    }
    DeclareAfterKeyword(b1, d1, 1, params);
    assert TwoKeys(k0, k1) == [d0, d1];
    PositionalSteps2(d0, d1, params, b1, Failure(PositionalAfterKeyword));
  }

  /** The first loop over three keys when two or three arguments are given, none a keyword. */
  lemma ThreePositional(k0: string, k1: string, k2: string, dv: string, params: seq<string>)
    requires k0 != k1 && k0 != k2 && k1 != k2
    requires 2 <= |params| <= 3 && forall i | 0 <= i < |params| :: '=' !in params[i]
    ensures var third := if |params| == 3 then Some(params[2]) else None;
      Positional(ThreeKeys(k0, k1, k2, dv), params)
      == Success(Bound(map[k0 := Some(params[0]), k1 := Some(params[1]), k2 := third],
                       map[k0 := None, k1 := None, k2 := Some(dv)], [k0, k1, k2], false))
  {
    var d0, d1, d2 := Decl(k0, None), Decl(k1, None), Decl(k2, Some(dv));
    var third := if |params| == 3 then Some(params[2]) else None;
    var b1 := Bound(map[k0 := Some(params[0])], map[k0 := None], [k0], false);
    var b2 := Bound(map[k0 := Some(params[0]), k1 := Some(params[1])], map[k0 := None, k1 := None], [k0, k1], false);
    var b3 := Bound(map[k0 := Some(params[0]), k1 := Some(params[1]), k2 := third],
                    map[k0 := None, k1 := None, k2 := Some(dv)], [k0, k1, k2], false);
    assert Declare(Start, d0, 0, params) == Success(b1) by {
      DeclarePositional(Start, d0, 0, params);
      assert Start.order + [k0] == [k0];
    }
    assert Declare(b1, d1, 1, params) == Success(b2) by {
      DeclarePositional(b1, d1, 1, params);
      assert b1.order + [k1] == [k0, k1];
    }
    assert Declare(b2, d2, 2, params) == Success(b3) by {
      if |params| == 3 {
        DeclarePositional(b2, d2, 2, params);
      } else {
        DeclareUnbound(b2, d2, 2, params);
      }
      assert b2.order + [k2] == [k0, k1, k2];
    }
    assert ThreeKeys(k0, k1, k2, dv) == [d0, d1, d2];
    PositionalSteps3(d0, d1, d2, params, b1, b2, b3);
  }

  /** parse_args over three keys when two or three arguments are given, none a keyword: only the last loop is left. */
  lemma ThreeBind(k0: string, k1: string, k2: string, dv: string, params: seq<string>)
    requires k0 != k1 && k0 != k2 && k1 != k2
    requires 2 <= |params| <= 3 && forall i | 0 <= i < |params| :: '=' !in params[i]
    ensures var third := if |params| == 3 then Some(params[2]) else None;
      BindArguments(ThreeKeys(k0, k1, k2, dv), params)
      == Fill([k0, k1, k2], map[k0 := Some(params[0]), k1 := Some(params[1]), k2 := third], map[k0 := None, k1 := None, k2 := Some(dv)])
  {
    var third := if |params| == 3 then Some(params[2]) else None;
    var paras := map[k0 := Some(params[0]), k1 := Some(params[1]), k2 := third];
    var defaults := map[k0 := None, k1 := None, k2 := Some(dv)];
    ThreePositional(k0, k1, k2, dv, params);
    assert |paras| == 3 by {
      Size3(k0, k1, k2, paras[k0], paras[k1], paras[k2]);
    }
    BindSteps(ThreeKeys(k0, k1, k2, dv), params, Bound(paras, defaults, [k0, k1, k2], false), paras);
  }

  /** A key left out takes its default (1.0-SNAPSHOT "extra value"). */
  lemma DefaultUsed(k0: string, k1: string, k2: string, dv: string, v0: string, v1: string)
    requires k0 != k1 && k0 != k2 && k1 != k2
    requires '=' !in v0 && '=' !in v1 && v0 != "" && v1 != ""
    ensures BindArguments(ThreeKeys(k0, k1, k2, dv), [v0, v1]) == Success(map[k0 := v0, k1 := v1, k2 := dv])
  {
    ThreeBind(k0, k1, k2, dv, [v0, v1]);
    FillTriple(k0, k1, k2, map[k0 := Some(v0), k1 := Some(v1), k2 := None], map[k0 := None, k1 := None, k2 := Some(dv)]);
  }

  /** A key given a value does not take its default (1.0-SNAPSHOT "extra value" "other def value"). */
  lemma DefaultOverridden(k0: string, k1: string, k2: string, dv: string, v0: string, v1: string, v2: string)
    requires k0 != k1 && k0 != k2 && k1 != k2
    requires '=' !in v0 && '=' !in v1 && '=' !in v2 && v0 != "" && v1 != "" && v2 != ""
    ensures BindArguments(ThreeKeys(k0, k1, k2, dv), [v0, v1, v2]) == Success(map[k0 := v0, k1 := v1, k2 := v2])
  {
    ThreeBind(k0, k1, k2, dv, [v0, v1, v2]);
    FillTriple(k0, k1, k2, map[k0 := Some(v0), k1 := Some(v1), k2 := Some(v2)], map[k0 := None, k1 := None, k2 := Some(dv)]);
  }

  // The create and print commands' cases, with the tests' own keys and values

  const MyKeys := TwoKeys("MyParam", "ExtraParam")

  lemma CreateMissing()
    ensures BindArguments(MyKeys, []) == Failure(MissingParameter("MyParam"))
  {
    NoneGiven("MyParam", "ExtraParam");
  }

  lemma CreateTooMany()
    ensures BindArguments(MyKeys, ["p1", "p2", "p3", "p4"]) == Failure(TooManyParameters)
  {
    TooMany("MyParam", "ExtraParam", ["p1", "p2", "p3", "p4"]);
  }

  lemma CreateKeyword()
    ensures BindArguments(MyKeys, ["my-param-value", "ExtraParam=extra-param-value"])
         == Success(map["MyParam" := "my-param-value", "ExtraParam" := "extra-param-value"])
  {
    assert "ExtraParam" + "=" + "extra-param-value" == "ExtraParam=extra-param-value";
    KeywordValueWithEquals("MyParam", "ExtraParam", "my-param-value", "extra-param-value");
  }

  lemma CreateKeywordWithEquals()
    ensures BindArguments(MyKeys, ["my-param-value", "ExtraParam=extra=param=value"])
         == Success(map["MyParam" := "my-param-value", "ExtraParam" := "extra=param=value"])
  {
    assert "ExtraParam" + "=" + "extra=param=value" == "ExtraParam=extra=param=value";
    KeywordValueWithEquals("MyParam", "ExtraParam", "my-param-value", "extra=param=value");
  }

  lemma CreateUnknown()
    ensures BindArguments(MyKeys, ["UnknownParam=value"]) == Failure(UnrecognizedKeyword("UnknownParam"))
  {
    assert "UnknownParam" + "=" + "value" == "UnknownParam=value";
    UnknownKeyword("MyParam", "ExtraParam", "UnknownParam", "value");
  }

  lemma CreatePositionalTwice()
    ensures BindArguments(MyKeys, ["my-param-value", "MyParam=param-value-again"]) == Failure(SpecifiedMultipleTimes("MyParam"))
  {
    assert "MyParam" + "=" + "param-value-again" == "MyParam=param-value-again";
    PositionalThenKeyword("MyParam", "ExtraParam", "my-param-value", "param-value-again");
  }

  lemma CreateKeywordTwice()
    ensures BindArguments(MyKeys, ["MyParam=my-param-value", "MyParam=param-value-again"]) == Failure(SpecifiedMultipleTimes("MyParam"))
  {
    assert "MyParam" + "=" + "my-param-value" == "MyParam=my-param-value";
    assert "MyParam" + "=" + "param-value-again" == "MyParam=param-value-again";
    KeywordTwice("MyParam", "ExtraParam", "my-param-value", "param-value-again");
  }

  lemma CreatePositionalAfterKeyword()
    ensures BindArguments(MyKeys, ["MyParam=my-param-value", "positional"]) == Failure(PositionalAfterKeyword)
  {
    assert "MyParam" + "=" + "my-param-value" == "MyParam=my-param-value";
    KeywordThenPositionalArg("MyParam", "ExtraParam", "my-param-value", "positional");
  }

  const PrintKeys := ThreeKeys("ImageVersion", "ExtraParam", "DefParam", "DefValue")

  lemma PrintDefault()
    ensures BindArguments(PrintKeys, ["1.0-SNAPSHOT", "extra value"])
         == Success(map["ImageVersion" := "1.0-SNAPSHOT", "ExtraParam" := "extra value", "DefParam" := "DefValue"])
  {
    DefaultUsed("ImageVersion", "ExtraParam", "DefParam", "DefValue", "1.0-SNAPSHOT", "extra value");
  }

  lemma PrintOverride()
    ensures BindArguments(PrintKeys, ["1.0-SNAPSHOT", "extra value", "other def value"])
         == Success(map["ImageVersion" := "1.0-SNAPSHOT", "ExtraParam" := "extra value", "DefParam" := "other def value"])
  {
    DefaultOverridden("ImageVersion", "ExtraParam", "DefParam", "DefValue", "1.0-SNAPSHOT", "extra value", "other def value");
  }
}
