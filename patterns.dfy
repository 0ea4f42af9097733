/** The two regular expressions of the controller: the alias format
    `^(?=.*[a-z])(?=.*[A-Z])(?=.*\d)[A-Za-z\d]{8,}$` and the global `+`
    replacement applied to preview identifiers. */
module Patterns {

  /** The character classes the alias pattern uses. */
  datatype CharClass = Lower | Upper | Digit | AlphaNum

  predicate IsLower(c: char) { 'a' <= c <= 'z' }
  predicate IsUpper(c: char) { 'A' <= c <= 'Z' }
  /** `\d` in a JavaScript regular expression is the ASCII digits only. */
  predicate IsDigit(c: char) { '0' <= c <= '9' }

  predicate InClass(c: char, cls: CharClass) {
    match cls
    case Lower => IsLower(c)
    case Upper => IsUpper(c)
    case Digit => IsDigit(c)
    case AlphaNum => IsLower(c) || IsUpper(c) || IsDigit(c)
  }

  /** The characters that `.` does not match in a pattern without the `s` flag. */
  predicate IsLineTerminator(c: char) {
    c == '\n' || c == '\r' || c == '\U{2028}' || c == '\U{2029}'
  }

  /** Whether the lookahead `(?=.*[cls])` succeeds at the start of `s`: some
      character of the class is preceded only by characters `.` matches. */
  function LookaheadFinds(s: string, cls: CharClass): (r: bool)
    ensures r ==> exists i :: 0 <= i < |s| && InClass(s[i], cls)
  {
    if s == [] then false
    else if InClass(s[0], cls) then true
    else if IsLineTerminator(s[0]) then false
    else
      var rest := LookaheadFinds(s[1..], cls);
      assert rest ==> exists i :: 0 <= i < |s| && InClass(s[i], cls) by {
        if rest {
          var k :| 0 <= k < |s[1..]| && InClass(s[1..][k], cls);
          assert InClass(s[k + 1], cls);
        }
      }
      rest
  }

  /** Whether every character of `s` belongs to the class. */
  function AllInClass(s: string, cls: CharClass): (r: bool)
  {
    s == [] || (InClass(s[0], cls) && AllInClass(s[1..], cls))
  }

  /** `aliasRegex.test(s)`: three lookaheads at position 0, then
      `[A-Za-z\d]{8,}` anchored at both ends. */
  function AliasRegexTest(s: string): (r: bool)
    ensures r ==> |s| >= 8 && forall i :: 0 <= i < |s| ==> InClass(s[i], AlphaNum)
  {
    AllInClassMeans(s, AlphaNum);
    LookaheadFinds(s, Lower) && LookaheadFinds(s, Upper) && LookaheadFinds(s, Digit)
    && |s| >= 8 && AllInClass(s, AlphaNum)
  }

  /** The alias format rule stated directly: at least 8 characters, only ASCII
      letters and digits, and at least one lower-case letter, one upper-case
      letter and one digit. */
  ghost predicate ValidAlias(s: string) {
    && |s| >= 8
    && (forall i :: 0 <= i < |s| ==> InClass(s[i], AlphaNum))
    && (exists i :: 0 <= i < |s| && IsLower(s[i]))
    && (exists i :: 0 <= i < |s| && IsUpper(s[i]))
    && (exists i :: 0 <= i < |s| && IsDigit(s[i]))
  }

  lemma {:induction false} AllInClassMeans(s: string, cls: CharClass)
    ensures AllInClass(s, cls) <==> forall i :: 0 <= i < |s| ==> InClass(s[i], cls)
  {
    if s != [] {
      AllInClassMeans(s[1..], cls);
      assert forall i :: 1 <= i < |s| ==> s[i] == s[1..][i - 1];
    }
  }

  /** On a string of letters and digits the lookahead finds a class member
      exactly when the string has one anywhere. */
  lemma {:induction false} LookaheadFindsMeans(s: string, cls: CharClass)
    requires forall i :: 0 <= i < |s| ==> InClass(s[i], AlphaNum)
    ensures LookaheadFinds(s, cls) <==> exists i :: 0 <= i < |s| && InClass(s[i], cls)
  {
    if s != [] {
      assert forall i :: 1 <= i < |s| ==> s[i] == s[1..][i - 1];
      LookaheadFindsMeans(s[1..], cls);
      if !InClass(s[0], cls) {
        if exists i :: 0 <= i < |s| && InClass(s[i], cls) {
          var i :| 0 <= i < |s| && InClass(s[i], cls);
          assert InClass(s[1..][i - 1], cls);
        }
      }
    }
  }

  /** The regular expression accepts exactly the aliases the format rule allows. */
  lemma AliasRegexMeansValidAlias(s: string)
    ensures AliasRegexTest(s) <==> ValidAlias(s)
  {
    AllInClassMeans(s, AlphaNum);
    if AllInClass(s, AlphaNum) {
      LookaheadFindsMeans(s, Lower);
      LookaheadFindsMeans(s, Upper);
      LookaheadFindsMeans(s, Digit);
      assert (exists i :: 0 <= i < |s| && InClass(s[i], Lower)) <==> (exists i :: 0 <= i < |s| && IsLower(s[i]));
      assert (exists i :: 0 <= i < |s| && InClass(s[i], Upper)) <==> (exists i :: 0 <= i < |s| && IsUpper(s[i]));
      assert (exists i :: 0 <= i < |s| && InClass(s[i], Digit)) <==> (exists i :: 0 <= i < |s| && IsDigit(s[i]));
    }
  }

  /** Examples: no upper-case letter, too short, and accepted. */
  lemma AliasExamples()
    ensures !AliasRegexTest("abc12345")
    ensures !AliasRegexTest("AB1")
    ensures AliasRegexTest("Abcdefg1") && ValidAlias("Abcdefg1")
  {
    assert !AliasRegexTest("abc12345") by {
      var lowerOnly := "abc12345";
      assert forall i :: 0 <= i < |lowerOnly| ==> InClass(lowerOnly[i], AlphaNum) && !IsUpper(lowerOnly[i]);
      LookaheadFindsMeans(lowerOnly, Upper);
    }
    assert ValidAlias("Abcdefg1") by {
      var mixed := "Abcdefg1";
      assert IsUpper(mixed[0]) && IsLower(mixed[1]) && IsDigit(mixed[7]);
    }
    AliasRegexMeansValidAlias("Abcdefg1");
  }

  /** `id.replace(/\+/g, "")`: every `+` removed, everything else kept in order. */
  function StripPlus(id: string): (r: string)
    ensures '+' !in r
  {
    if id == [] then []
    else if id[0] == '+' then StripPlus(id[1..])
    else [id[0]] + StripPlus(id[1..])
  }

  /** Only `+` characters are dropped: every other character occurs as often
      in the result as in the identifier. */
  lemma {:induction false} StripPlusCounts(id: string)
    ensures forall c :: c != '+' ==> multiset(StripPlus(id))[c] == multiset(id)[c]
    ensures |StripPlus(id)| + multiset(id)['+'] == |id|
  {
    if id != [] {
      StripPlusCounts(id[1..]);
      assert id == [id[0]] + id[1..];
      assert multiset(id) == multiset([id[0]]) + multiset(id[1..]);
    }
  }

  /** Stripping works piece by piece, so the order of the kept characters is
      the order they had in the identifier. */
  lemma {:induction false} StripPlusConcat(a: string, b: string)
    ensures StripPlus(a + b) == StripPlus(a) + StripPlus(b)
  {
    if a != [] {
      assert (a + b)[1..] == a[1..] + b;
      StripPlusConcat(a[1..], b);
    } else {
      assert a + b == b;
    }
  }

  /** An identifier without `+` is left as it is. */
  lemma {:induction false} StripPlusNoPlus(id: string)
    requires '+' !in id
    ensures StripPlus(id) == id
  {
    if id != [] {
      assert '+' !in id[1..] by {
        assert forall c :: c in id[1..] ==> c in id;
      }
      StripPlusNoPlus(id[1..]);
    }
  }

  /** Removing the one `+` between two plain parts joins them. */
  lemma StripPlusJoin(a: string, b: string)
    requires '+' !in a && '+' !in b
    ensures StripPlus(a + ['+'] + b) == a + b
  {
    var plus := ['+'];
    assert StripPlus(plus) == [] by {
      assert plus[0] == '+' && plus[1..] == [];
    }
    calc {
      StripPlus(a + plus + b);
    == { StripPlusConcat(a + plus, b); }
      StripPlus(a + plus) + StripPlus(b);
    == { StripPlusConcat(a, plus); }
      StripPlus(a) + StripPlus(plus) + StripPlus(b);
    == { StripPlusNoPlus(a); StripPlusNoPlus(b); }
      a + [] + b;
    == { assert a + [] == a; }
      a + b;
    }
  }

  lemma StripPlusExample()
    ensures StripPlus("abc+123") == "abc123"
  {
    StripPlusJoin("abc", "123");
    assert "abc" + ['+'] + "123" == "abc+123";
  }
}
