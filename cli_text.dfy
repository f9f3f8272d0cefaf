/**
 * String rules of the command line: Python's substring test, splitting on
 * the first occurrence of a separator, and the two regular expressions that
 * stack names and versions must satisfy.
 */
module CliText {
  import opened Wrappers

  /** Python's `sub in s` for strings: `sub` occurs somewhere in `s`. */
  predicate Contains(s: string, sub: string)
    decreases |s|
  {
    sub <= s || (s != [] && Contains(s[1..], sub))
  }

  /** `sub` occurs in `s` starting at position `i`. */
  predicate OccursAt(s: string, sub: string, i: int)
  {
    0 <= i && i + |sub| <= |s| && s[i..i + |sub|] == sub
  }

  /** An occurrence at a position is found by the substring test. */
  lemma {:induction false} OccursContains(s: string, sub: string, i: nat)
    requires OccursAt(s, sub, i)
    ensures Contains(s, sub)
    decreases i
  {
    if i > 0 {
      assert OccursAt(s[1..], sub, i - 1) by {
        assert s[1..][i - 1..i - 1 + |sub|] == s[i..i + |sub|];
      }
      OccursContains(s[1..], sub, i - 1);
    }
  }

  /** A substring the test finds occurs at some position. */
  lemma {:induction false} ContainsOccurs(s: string, sub: string)
    requires Contains(s, sub)
    ensures exists i :: OccursAt(s, sub, i)
    decreases |s|
  {
    if sub <= s {
      assert OccursAt(s, sub, 0);
    } else {
      ContainsOccurs(s[1..], sub);
      var i :| OccursAt(s[1..], sub, i);
      assert OccursAt(s, sub, i + 1) by {
        assert s[1..][i..i + |sub|] == s[i + 1..i + 1 + |sub|];
      }
    }
  }

  /** Contains agrees with "occurs at some position". */
  lemma ContainsAt(s: string, sub: string)
    ensures Contains(s, sub) <==> exists i :: OccursAt(s, sub, i)
  {
    if Contains(s, sub) {
      ContainsOccurs(s, sub);
    }
    if exists i :: OccursAt(s, sub, i) {
      var i :| OccursAt(s, sub, i);
      OccursContains(s, sub, i);
    }
  }

  /**
   * `s.split(c, 1)` when `c` occurs: the text before the first `c` and
   * everything after it, further occurrences of `c` included.
   */
  function SplitFirst(s: string, c: char): (r: (string, string))
    requires c in s
    ensures c !in r.0 && s == r.0 + [c] + r.1
  {
    if s[0] == c then ([], s[1..])
    else
      var (a, b) := SplitFirst(s[1..], c);
      ([s[0]] + a, b)
  }

  /** Splitting is the inverse of joining at a separator the head does not contain. */
  lemma {:induction false} SplitFirstJoin(a: string, c: char, b: string)
    requires c !in a
    ensures SplitFirst(a + [c] + b, c) == (a, b)
  {
    if a == [] {
      assert a + [c] + b == [c] + b;
    } else {
      assert (a + [c] + b)[0] == a[0] != c;
      assert (a + [c] + b)[1..] == a[1..] + [c] + b;
      SplitFirstJoin(a[1..], c, b);
      assert [a[0]] + a[1..] == a;
    }
  }

  predicate IsLetter(ch: char)
  {
    'a' <= ch <= 'z' || 'A' <= ch <= 'Z'
  }

  predicate IsDigit(ch: char)
  {
    '0' <= ch <= '9'
  }

  /** `[a-zA-Z0-9]` */
  predicate IsAlnum(ch: char)
  {
    IsLetter(ch) || IsDigit(ch)
  }

  /**
   * What `^...$` leaves for the body to match: Python's `$` also matches
   * just before a single newline at the very end.
   */
  function Anchored(s: string): (t: string)
    ensures t == s || (s == t + "\n")
  {
    if |s| > 0 && s[|s| - 1] == '\n' then s[..|s| - 1] else s
  }

  /** `VERSION_PATTERN.match(s)`: `^[a-zA-Z0-9]+$` */
  predicate VersionMatches(s: string)
  {
    var t := Anchored(s);
    |t| > 0 && forall i | 0 <= i < |t| :: IsAlnum(t[i])
  }

  /** `STACK_NAME_PATTERN.match(s)`: `^[a-zA-Z][a-zA-Z0-9-]*$` */
  predicate StackNameMatches(s: string)
  {
    var t := Anchored(s);
    |t| > 0 && IsLetter(t[0]) && forall i | 1 <= i < |t| :: IsAlnum(t[i]) || t[i] == '-'
  }

  /** A non-empty string of letters and digits. */
  predicate AlnumWord(w: string)
  {
    |w| > 0 && forall i | 0 <= i < |w| :: IsAlnum(w[i])
  }

  /** The version pattern accepts exactly the alphanumeric words, optionally followed by one newline. */
  lemma VersionMatchesWords(s: string)
    ensures VersionMatches(s) <==> AlnumWord(s) || (exists w :: AlnumWord(w) && s == w + "\n")
  {
    if VersionMatches(s) {
      var t := Anchored(s);
      if t != s {
        assert AlnumWord(t) && s == t + "\n";
      }
    }
    if exists w :: AlnumWord(w) && s == w + "\n" {
      var w :| AlnumWord(w) && s == w + "\n";
      assert s[..|s| - 1] == w;
    }
  }

  /** Validated versions never contain '-', so `name + "-" + version` ends in the version after its last '-'. */
  lemma VersionHasNoDash(s: string)
    requires VersionMatches(s)
    ensures '-' !in s
  {
    var t := Anchored(s);
    forall i | 0 <= i < |s| ensures s[i] != '-' {
      if i < |t| {
        assert t[i] == s[i];
      }
    }
  }

  /** A stack-name match never contains '.' or '/' (so it cannot be a file path). */
  lemma StackNameNoPath(s: string)
    requires StackNameMatches(s)
    ensures '.' !in s && '/' !in s
  {
    var t := Anchored(s);
    forall i | 0 <= i < |s| ensures s[i] != '.' && s[i] != '/' {
      if i < |t| {
        assert t[i] == s[i];
        if i > 0 {
          assert IsAlnum(t[i]) || t[i] == '-';
        }
      }
    }
  }

  datatype BadParameter = BadVersion(value: string)

  /** validate_version: passes a matching version through, otherwise raises BadParameter. */
  function ValidateVersion(value: string): (r: Result<string, BadParameter>)
    ensures r.Success? <==> VersionMatches(value)
    ensures r.Success? ==> r.value == value
    ensures r.Failure? ==> r.error == BadVersion(value)
  {
    if VersionMatches(value) then Success(value) else Failure(BadVersion(value))
  }
}
