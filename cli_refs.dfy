/**
 * get_stack_refs: turns the command line's `NAME [VERSION] NAME [VERSION] ...`
 * into stack references. A NAME may also be the path of a definition file,
 * whose SenzaInfo.StackName is used instead.
 */
module CliRefs {
  import opened Wrappers
  import opened CliText

  datatype StackReference = StackReference(name: string, version: Option<string>)

  /** click.FileError raised for a reference that is neither a readable definition nor a stack name. */
  datatype FileError = FileError(path: string)

  /**
   * The definition files that can be read: path to the StackName they declare.
   * A path outside the map stands for every way opening or loading it fails.
   */
  type Definitions = map<string, string>

  /** The stack name a reference stands for. */
  function ResolveName(files: Definitions, ref: string): (r: Result<string, FileError>)
    ensures r.Success? <==> ref in files || StackNameMatches(ref)
    ensures r.Success? && ref !in files ==> r.value == ref
    ensures r.Success? && ref in files ==> r.value == files[ref]
    ensures r.Failure? ==> r.error == FileError(ref)
  {
    if ref in files then Success(files[ref])
    else if StackNameMatches(ref) then Success(ref)
    else Failure(FileError(ref))
  }

  /** The references read from the front: a name, then its version if one follows. */
  function StackRefs(files: Definitions, refs: seq<string>): Result<seq<StackReference>, FileError>
  {
    if refs == [] then Success([])
    else
      var name :- ResolveName(files, refs[0]);
      if |refs| == 1 then Success([StackReference(name, None)])
      else
        var rest :- StackRefs(files, refs[2..]);
        Success([StackReference(name, Some(refs[1]))] + rest)
  }

  /** `out` followed by what `r` yields, or r's failure. */
  function Prepend(out: seq<StackReference>, r: Result<seq<StackReference>, FileError>): Result<seq<StackReference>, FileError>
  {
    if r.Failure? then r else Success(out + r.value)
  }

  function Reverse(s: seq<string>): (r: seq<string>)
    ensures |r| == |s|
  {
    if s == [] then [] else Reverse(s[1..]) + [s[0]]
  }

  lemma ReversePop(s: seq<string>)
    requires s != []
    ensures Reverse(s)[|s| - 1] == s[0] && Reverse(s)[..|s| - 1] == Reverse(s[1..])
  {
  }

  /** A name followed by a version: one reference for both. */
  lemma StepPair(files: Definitions, refs: seq<string>, i: nat, out: seq<StackReference>, name: string)
    requires i + 1 < |refs| && ResolveName(files, refs[i]) == Success(name)
    ensures Prepend(out, StackRefs(files, refs[i..]))
         == Prepend(out + [StackReference(name, Some(refs[i + 1]))], StackRefs(files, refs[i + 2..]))
  {
    assert refs[i..][2..] == refs[i + 2..];
    var rest := StackRefs(files, refs[i + 2..]);
    if rest.Success? {
      assert out + ([StackReference(name, Some(refs[i + 1]))] + rest.value)
          == out + [StackReference(name, Some(refs[i + 1]))] + rest.value;
    }
  }

  /** A trailing name: a reference without a version. */
  lemma StepLast(files: Definitions, refs: seq<string>, i: nat, out: seq<StackReference>, name: string)
    requires i + 1 == |refs| && ResolveName(files, refs[i]) == Success(name)
    ensures Prepend(out, StackRefs(files, refs[i..]))
         == Prepend(out + [StackReference(name, None)], StackRefs(files, refs[i + 1..]))
  {
    assert refs[i + 1..] == [];
    assert out + [StackReference(name, None)] + [] == out + [StackReference(name, None)];
  }

  /** get_stack_refs: reverse the list, then pop a name and, while any is left, its version. */
  method GetStackRefs(files: Definitions, refs: seq<string>) returns (res: Result<seq<StackReference>, FileError>)
    ensures res == StackRefs(files, refs)
  {
    var pending := Reverse(refs);
    var stackRefs: seq<StackReference> := [];
    ghost var i := 0;
    assert Prepend([], StackRefs(files, refs[0..])) == StackRefs(files, refs) by {
      assert refs[0..] == refs;
      var all := StackRefs(files, refs);
      assert all.Success? ==> [] + all.value == all.value;
    }
    while |pending| > 0
      invariant 0 <= i <= |refs|
      invariant pending == Reverse(refs[i..])
      invariant Prepend(stackRefs, StackRefs(files, refs[i..])) == StackRefs(files, refs)
      decreases |pending|
    {
      var ref := pending[|pending| - 1];
      pending := pending[..|pending| - 1];
      assert ref == refs[i] && pending == Reverse(refs[i + 1..]) by {
        ReversePop(refs[i..]);
        assert refs[i..][1..] == refs[i + 1..];
      }
      var name := ResolveName(files, ref);
      if name.Failure? {
        return Failure(name.error);
      }
      var version: Option<string>;
      if |pending| > 0 {
        version := Some(pending[|pending| - 1]);
        pending := pending[..|pending| - 1];
        assert version.value == refs[i + 1] && pending == Reverse(refs[i + 2..]) by {
          ReversePop(refs[i + 1..]);
          assert refs[i + 1..][1..] == refs[i + 2..];
        }
        StepPair(files, refs, i, stackRefs, name.value);
        i := i + 2;
      } else {
        version := None;
        StepLast(files, refs, i, stackRefs, name.value);
        i := i + 1;
      }
      stackRefs := stackRefs + [StackReference(name.value, version)];
    }
    assert refs[i..] == [];
    assert stackRefs + [] == stackRefs;
    return Success(stackRefs);
  }

  // Properties of the pairing

  /** The reference at a name position resolves. */
  predicate Resolves(files: Definitions, ref: string)
  {
    ref in files || StackNameMatches(ref)
  }

  /** Every name position before `n` resolves. */
  predicate AllResolve(files: Definitions, refs: seq<string>, n: int)
  {
    forall m | 0 <= m < n && m < |refs| && m % 2 == 0 :: Resolves(files, refs[m])
  }

  lemma AllResolveShift(files: Definitions, refs: seq<string>, n: int)
    requires |refs| >= 2 && n >= 2
    ensures AllResolve(files, refs, n) <==> Resolves(files, refs[0]) && AllResolve(files, refs[2..], n - 2)
  {
    if Resolves(files, refs[0]) && AllResolve(files, refs[2..], n - 2) {
      forall m | 0 <= m < n && m < |refs| && m % 2 == 0 ensures Resolves(files, refs[m]) {
        if m >= 2 {
          assert refs[m] == refs[2..][m - 2];
        }
      }
    }
    if AllResolve(files, refs, n) {
      forall m | 0 <= m < n - 2 && m < |refs[2..]| && m % 2 == 0 ensures Resolves(files, refs[2..][m]) {
        assert refs[2..][m] == refs[m + 2];
      }
    }
  }

  /** get_stack_refs succeeds exactly when every name position resolves. */
  lemma {:induction false} StackRefsSucceed(files: Definitions, refs: seq<string>)
    ensures StackRefs(files, refs).Success? <==> AllResolve(files, refs, |refs|)
  {
    if |refs| >= 2 {
      StackRefsSucceed(files, refs[2..]);
      AllResolveShift(files, refs, |refs|);
    }
  }

  /** A failure names the first name position that does not resolve. */
  lemma {:induction false} StackRefsError(files: Definitions, refs: seq<string>)
    requires StackRefs(files, refs).Failure?
    ensures exists j | 0 <= j < |refs| && j % 2 == 0 ::
      !Resolves(files, refs[j]) && AllResolve(files, refs, j) && StackRefs(files, refs).error == FileError(refs[j])
  {
    if !Resolves(files, refs[0]) {
      assert AllResolve(files, refs, 0);
    } else {
      var tail := refs[2..];
      StackRefsError(files, tail);
      var j :| 0 <= j < |tail| && j % 2 == 0
        && !Resolves(files, tail[j]) && AllResolve(files, tail, j) && StackRefs(files, tail).error == FileError(tail[j]);
      AllResolveShift(files, refs, j + 2);
      assert refs[j + 2] == tail[j];
    }
  }

  /** One reference per name: half the arguments, rounded up. */
  lemma {:induction false} StackRefsLength(files: Definitions, refs: seq<string>)
    requires StackRefs(files, refs).Success?
    ensures |StackRefs(files, refs).value| == (|refs| + 1) / 2
  {
    if |refs| > 1 {
      StackRefsLength(files, refs[2..]);
    }
  }

  /**
   * The k-th reference takes its name from position 2k and its version from
   * position 2k+1, if there is one.
   */
  predicate Paired(files: Definitions, refs: seq<string>, out: seq<StackReference>)
  {
    && |out| == (|refs| + 1) / 2
    && forall k | 0 <= k < |out| ::
         && ResolveName(files, refs[2 * k]) == Success(out[k].name)
         && out[k].version == (if 2 * k + 1 < |refs| then Some(refs[2 * k + 1]) else None)
  }

  /** A name and its version in front of paired references. */
  lemma PairedCons(files: Definitions, refs: seq<string>, name: string, rest: seq<StackReference>)
    requires |refs| >= 2 && ResolveName(files, refs[0]) == Success(name) && Paired(files, refs[2..], rest)
    ensures Paired(files, refs, [StackReference(name, Some(refs[1]))] + rest)
  {
    var out := [StackReference(name, Some(refs[1]))] + rest;
    assert out[1..] == rest;
    forall k | 1 <= k < |out|
      ensures ResolveName(files, refs[2 * k]) == Success(out[k].name)
      ensures out[k].version == (if 2 * k + 1 < |refs| then Some(refs[2 * k + 1]) else None)
    {
      assert out[k] == out[1..][k - 1];
      assert refs[2 * k] == refs[2..][2 * (k - 1)];
      assert 2 * k + 1 < |refs| ==> refs[2 * k + 1] == refs[2..][2 * (k - 1) + 1];
    }
  }

  /** Every reference get_stack_refs returns is paired with its arguments. */
  lemma {:induction false} StackRefsPairs(files: Definitions, refs: seq<string>)
    requires StackRefs(files, refs).Success?
    ensures Paired(files, refs, StackRefs(files, refs).value)
  {
    if |refs| > 1 {
      StackRefsPairs(files, refs[2..]);
      PairedCons(files, refs, ResolveName(files, refs[0]).value, StackRefs(files, refs[2..]).value);
    }
  }

  /** The arguments a list of references is written as: each name, followed by its version if it has one. */
  function Flatten(out: seq<StackReference>): seq<string>
  {
    if out == [] then []
    else
      var head := if out[0].version.Some? then [out[0].name, out[0].version.value] else [out[0].name];
      head + Flatten(out[1..])
  }

  /** Without definition files, writing the references back out gives the arguments again. */
  lemma {:induction false} FlattenStackRefs(refs: seq<string>)
    requires StackRefs(map[], refs).Success?
    ensures Flatten(StackRefs(map[], refs).value) == refs
  {
    if |refs| == 1 {
      assert Flatten([StackReference(refs[0], None)]) == [refs[0]];
    } else if |refs| > 1 {
      var out := StackRefs(map[], refs).value;
      FlattenStackRefs(refs[2..]);
      assert out[1..] == StackRefs(map[], refs[2..]).value;
      assert [refs[0], refs[1]] + refs[2..] == refs;
    }
  }

  // The doctests

  lemma NameOnly()
    ensures StackRefs(map[], ["foobar-stack"]) == Success([StackReference("foobar-stack", None)])
  {
    assert StackNameMatches("foobar-stack");
  }

  lemma NameAndVersion()
    ensures StackRefs(map[], ["foobar-stack", "1"]) == Success([StackReference("foobar-stack", Some("1"))])
  {
    assert StackNameMatches("foobar-stack");
    assert ["foobar-stack", "1"][2..] == [];
    assert StackRefs(map[], ["foobar-stack", "1"][2..]) == Success([]);
    assert [StackReference("foobar-stack", Some("1"))] + [] == [StackReference("foobar-stack", Some("1"))];
  }

  lemma TwoStacks()
    ensures StackRefs(map[], ["foobar-stack", "1", "other-stack"])
         == Success([StackReference("foobar-stack", Some("1")), StackReference("other-stack", None)])
  {
    assert StackNameMatches("foobar-stack") && StackNameMatches("other-stack");
    assert ["foobar-stack", "1", "other-stack"][2..] == ["other-stack"];
    assert StackRefs(map[], ["other-stack"]) == Success([StackReference("other-stack", None)]);
    assert [StackReference("foobar-stack", Some("1"))] + [StackReference("other-stack", None)]
        == [StackReference("foobar-stack", Some("1")), StackReference("other-stack", None)];
  }
}
