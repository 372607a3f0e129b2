/**
 Normalization of a configured call name (`normalizeCall` of the factory): one trailing
 `()` is dropped, then every leading namespace separator `\` is dropped. The result is
 the name the factory files a rule under.
 */
module CallName {

  /**
   PHP `substr($s, -2) === '()'`. For a string shorter than two characters `substr`
   returns the whole string, which is never `()`, so the length guard loses nothing.
   */
  predicate EndsWithParens(s: string) {
    |s| >= 2 && s[|s| - 2..] == "()"
  }

  /** `$s` without one trailing `()`, if it has one. */
  function StripParens(s: string): (r: string)
    ensures EndsWithParens(s) ==> r + "()" == s
    ensures !EndsWithParens(s) ==> r == s
  {
    if EndsWithParens(s) then s[..|s| - 2] else s
  }

  /** PHP `ltrim($s, '\\')`: the longest suffix of `s` that does not start with `\`. */
  function TrimLeadingBackslashes(s: string): (r: string)
    ensures |r| <= |s| && s == Backslashes(|s| - |r|) + r
    ensures |r| == 0 || r[0] != '\\'
  {
    if |s| > 0 && s[0] == '\\' then
      var r := TrimLeadingBackslashes(s[1..]);
      assert Backslashes(|s| - |r|) == "\\" + Backslashes(|s[1..]| - |r|);
      r
    else
      assert Backslashes(0) + s == s;
      s
  }

  /**
   The normalized name is what remains of `call` once one trailing `()` and a run of
   leading separators are taken off, and it never starts with a separator itself.
   */
  function NormalizeCall(call: string): (r: string)
    ensures |r| == 0 || r[0] != '\\'
    ensures EndsWithParens(call) ==> |r| <= |call| - 2 && call == Backslashes(|call| - 2 - |r|) + r + "()"
    ensures !EndsWithParens(call) ==> |r| <= |call| && call == Backslashes(|call| - |r|) + r
  {
    TrimLeadingBackslashes(StripParens(call))
  }

  /** `n` namespace separators. */
  function Backslashes(n: nat): (s: string)
    ensures |s| == n && forall i :: 0 <= i < n ==> s[i] == '\\'
  {
    if n == 0 then "" else "\\" + Backslashes(n - 1)
  }

  /**
   Normalization undoes decoration: any number of leading separators and one `()`
   around a name that does not itself start with a separator come off again.
   */
  lemma {:induction false} NormalizeCallUndecorates(name: string, n: nat)
    requires |name| == 0 || name[0] != '\\'
    ensures NormalizeCall(Backslashes(n) + name + "()") == name
  {
    var s := Backslashes(n) + name + "()";
    assert EndsWithParens(s);
    assert StripParens(s) == Backslashes(n) + name;
    TrimBackslashesPrefix(name, n);
  }

  lemma {:induction false} TrimBackslashesPrefix(name: string, n: nat)
    requires |name| == 0 || name[0] != '\\'
    ensures TrimLeadingBackslashes(Backslashes(n) + name) == name
  {
    var s := Backslashes(n) + name;
    if n == 0 {
      assert s == name;
    } else {
      assert Backslashes(n) == "\\" + Backslashes(n - 1);
      assert s == "\\" + (Backslashes(n - 1) + name);
      assert s[0] == '\\' && s[1..] == Backslashes(n - 1) + name;
      TrimBackslashesPrefix(name, n - 1);
      assert TrimLeadingBackslashes(s) == TrimLeadingBackslashes(s[1..]);
    }
  }

  /**
   Normalizing twice gives the same as normalizing once exactly when the normalized
   name does not itself end with `()`: only one `()` comes off per call.
   */
  lemma NormalizeCallIdempotentIff(call: string)
    ensures NormalizeCall(NormalizeCall(call)) == NormalizeCall(call)
        <==> !EndsWithParens(NormalizeCall(call))
  {
    var r := NormalizeCall(call);
    if !EndsWithParens(r) {
      assert StripParens(r) == r;
      TrimBackslashesPrefix(r, 0);
      assert Backslashes(0) + r == r;
    }
  }

  /** Only one `()` comes off per call: `f()()` needs two normalizations to reach `f`. */
  lemma NormalizeCallStripsOneSuffix()
    ensures NormalizeCall("f()()") == "f()"
    ensures NormalizeCall(NormalizeCall("f()()")) == "f"
  {
    assert EndsWithParens("f()()") && StripParens("f()()") == "f()";
    assert TrimLeadingBackslashes("f()") == "f()";
    assert EndsWithParens("f()") && StripParens("f()") == "f";
    assert TrimLeadingBackslashes("f") == "f";
  }

  /** A global function loses its leading separator and its `()`. */
  lemma NormalizeCallGlobalFunction()
    ensures NormalizeCall("\\strtolower()") == "strtolower"
  {
    assert EndsWithParens("\\strtolower()") && StripParens("\\strtolower()") == "\\strtolower";
    assert TrimLeadingBackslashes("\\strtolower") == TrimLeadingBackslashes("strtolower") == "strtolower";
  }

  /**
   Leading separators go, a separator inside the name stays, and the name with or
   without `()` is filed under the same key.
   */
  lemma NormalizeCallNamespaced()
    ensures NormalizeCall("\\Foo\\bar()") == "Foo\\bar"
    ensures NormalizeCall("\\Foo\\bar") == "Foo\\bar"
  {
    assert EndsWithParens("\\Foo\\bar()") && StripParens("\\Foo\\bar()") == "\\Foo\\bar";
    assert !EndsWithParens("\\Foo\\bar") && StripParens("\\Foo\\bar") == "\\Foo\\bar";
    assert TrimLeadingBackslashes("\\Foo\\bar") == TrimLeadingBackslashes("Foo\\bar") == "Foo\\bar";
  }

  /** A static method name keeps its class and `::`, and loses its `()`. */
  lemma NormalizeCallMethod()
    ensures NormalizeCall("Foo\\Bar::baz()") == "Foo\\Bar::baz"
  {
    assert EndsWithParens("Foo\\Bar::baz()") && StripParens("Foo\\Bar::baz()") == "Foo\\Bar::baz";
    assert TrimLeadingBackslashes("Foo\\Bar::baz") == "Foo\\Bar::baz";
  }

  /** A name made only of separators and `()` normalizes to the empty name. */
  lemma NormalizeCallMayBeEmpty()
    ensures NormalizeCall("()") == ""
    ensures NormalizeCall("\\\\()") == ""
  {
    assert EndsWithParens("()") && StripParens("()") == "";
    assert EndsWithParens("\\\\()") && StripParens("\\\\()") == "\\\\";
    assert TrimLeadingBackslashes("\\\\") == TrimLeadingBackslashes("\\") == TrimLeadingBackslashes("") == "";
  }
}
