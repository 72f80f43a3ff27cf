/** The parts of `java.lang.String` the entity validators rely on. `trim()`
    removes every leading and trailing character whose code is at most U+0020,
    and the validators treat a string as blank when `trim().isEmpty()` holds. */
module JavaStrings {

  /** A character `String.trim()` removes from either end. */
  predicate Trimmable(c: char) {
    c <= ' '
  }

  /** Drops the leading trimmable characters. */
  function TrimStart(s: string): (r: string)
    ensures |r| <= |s| && r == s[|s| - |r|..]
    ensures forall i :: 0 <= i < |s| - |r| ==> Trimmable(s[i])
    ensures r == [] || !Trimmable(r[0])
  {
    if |s| > 0 && Trimmable(s[0]) then TrimStart(s[1..]) else s
  }

  /** Drops the trailing trimmable characters. */
  function TrimEnd(s: string): (r: string)
    ensures |r| <= |s| && r == s[..|r|]
    ensures forall i :: |r| <= i < |s| ==> Trimmable(s[i])
    ensures r == [] || !Trimmable(r[|r| - 1])
  {
    if |s| > 0 && Trimmable(s[|s| - 1]) then TrimEnd(s[..|s| - 1]) else s
  }

  /** `String.trim()`: `s` without its leading and trailing trimmable characters. */
  function Trim(s: string): (r: string)
    ensures |r| <= |s|
    ensures r == [] || (!Trimmable(r[0]) && !Trimmable(r[|r| - 1]))
  {
    TrimEnd(TrimStart(s))
  }

  /** The trimmed string is a slice of `s`, and everything cut off is trimmable. */
  lemma TrimIsSlice(s: string) returns (a: nat, b: nat)
    ensures a <= b <= |s| && Trim(s) == s[a..b]
    ensures forall i :: 0 <= i < a ==> Trimmable(s[i])
    ensures forall i :: b <= i < |s| ==> Trimmable(s[i])
  {
    var t := TrimStart(s);
    var r := TrimEnd(t);
    a, b := |s| - |t|, |s| - |t| + |r|;
    assert r == s[a..b];
  }

  /** `s.trim().isEmpty()`. */
  predicate IsBlank(s: string) {
    Trim(s) == []
  }

  /** A string is blank exactly when every character in it is trimmable. */
  lemma BlankIffAllTrimmable(s: string)
    ensures IsBlank(s) <==> forall i :: 0 <= i < |s| ==> Trimmable(s[i])
  {
    var a, b := TrimIsSlice(s);
    if !IsBlank(s) {
      assert !Trimmable(s[a]);
    }
  }

  /** One character `trim()` keeps is enough to make a string non-blank. */
  lemma KeptCharNotBlank(s: string, i: int)
    requires 0 <= i < |s| && !Trimmable(s[i])
    ensures !IsBlank(s)
  {
    BlankIffAllTrimmable(s);
  }
}
