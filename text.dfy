/** String handling the handlers share: PHP's falsy-field test and trim(). */
module Text {
  import opened Common

  /** A request field is missing when it is absent or the empty string (both falsy in PHP). */
  predicate Missing(v: Option<string>)
  {
    v.None? || v.value == ""
  }

  /** The characters PHP's trim() strips by default: space, tab, LF, CR, NUL and vertical tab. */
  predicate IsBlank(c: char)
  {
    c == ' ' || c == '\t' || c == '\n' || c == '\r' || c == '\0' || c == '\U{B}'
  }

  /** The number of blanks `s` starts with. */
  function Leading(s: string): (n: nat)
    ensures n <= |s|
    ensures forall i :: 0 <= i < n ==> IsBlank(s[i])
    ensures n < |s| ==> !IsBlank(s[n])
  {
    if s != [] && IsBlank(s[0]) then 1 + Leading(s[1..]) else 0
  }

  /** The number of blanks `s` ends with. */
  function Trailing(s: string): (n: nat)
    ensures n <= |s|
    ensures forall i :: |s| - n <= i < |s| ==> IsBlank(s[i])
    ensures n < |s| ==> !IsBlank(s[|s| - n - 1])
  {
    if s != [] && IsBlank(s[|s| - 1]) then 1 + Trailing(s[..|s| - 1]) else 0
  }

  /** `r` is `s[a..b]`, and everything of `s` outside `a..b` is blank. */
  ghost predicate Stripped(s: string, r: string, a: int, b: int)
  {
    0 <= a <= b <= |s| && r == s[a..b]
    && (forall i :: 0 <= i < a ==> IsBlank(s[i]))
    && (forall i :: b <= i < |s| ==> IsBlank(s[i]))
  }

  /** PHP's trim(): `s` with its leading and trailing blanks removed. */
  function Trim(s: string): (r: string)
    ensures r == [] || (!IsBlank(r[0]) && !IsBlank(r[|r| - 1]))
    ensures |r| <= |s|
    ensures exists a, b :: Stripped(s, r, a, b)
  {
    var a := Leading(s);
    if a == |s| then
      assert Stripped(s, [], a, a);
      []
    else
      var b := |s| - Trailing(s);
      assert a < b;
      assert Stripped(s, s[a..b], a, b);
      s[a..b]
  }

  /** A string trims to nothing exactly when it consists of blanks only. */
  lemma TrimEmptyIff(s: string)
    ensures Trim(s) == [] <==> forall i :: 0 <= i < |s| ==> IsBlank(s[i])
  {
    var a := Leading(s);
    if a < |s| {
      assert a < |s| - Trailing(s);
      assert !IsBlank(s[a]);
    }
  }

  /** A string without blanks at either end is left as it is. */
  lemma TrimKeeps(s: string)
    requires s == [] || (!IsBlank(s[0]) && !IsBlank(s[|s| - 1]))
    ensures Trim(s) == s
  {
  }

  /** Trimming twice is the same as trimming once. */
  lemma TrimIdempotent(s: string)
    ensures Trim(Trim(s)) == Trim(s)
  {
    TrimKeeps(Trim(s));
  }
}
