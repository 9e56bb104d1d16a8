/** Strings and the few JavaScript string primitives the analyzer relies on:
    the regular-expression class `\s`, ASCII lower-casing, `includes`, `trim`. */
module Text {

  /** A JavaScript value that may be `undefined`. */
  datatype Option<+T> = None | Some(value: T)

  function Min(a: int, b: int): int { if a <= b then a else b }

  /** `o || ''` for a string that may be absent: absent and empty both give `''`. */
  function OrEmpty(o: Option<string>): (r: string)
    ensures o.Some? ==> r == o.value
    ensures o.None? ==> r == ""
  {
    match o
    case Some(s) => s
    case None => ""
  }

  /** The characters matched by `\s` in a JavaScript regular expression, and
      stripped by `String.prototype.trim`: ECMAScript's WhiteSpace and
      LineTerminator code points. */
  predicate IsSpace(c: char) {
    c == '\t' || c == '\n' || c == '\U{B}' || c == '\U{C}' || c == '\r' || c == ' '
    || c == '\U{A0}' || c == '\U{1680}' || ('\U{2000}' <= c <= '\U{200A}')
    || c == '\U{2028}' || c == '\U{2029}' || c == '\U{202F}' || c == '\U{205F}'
    || c == '\U{3000}' || c == '\U{FEFF}'
  }

  predicate AllSpace(s: string) { forall k :: 0 <= k < |s| ==> IsSpace(s[k]) }

  predicate NoSpace(s: string) { forall k :: 0 <= k < |s| ==> !IsSpace(s[k]) }

  /** `\d` in a JavaScript regular expression: ASCII digits only. */
  predicate IsDigit(c: char) { '0' <= c <= '9' }


  function LowerAscii(c: char): (r: char)
    ensures 'A' <= c <= 'Z' ==> 'a' <= r <= 'z'
    ensures !('A' <= c <= 'Z') ==> r == c
  {
    if 'A' <= c <= 'Z' then (c as int + 32) as char else c
  }

  /** Lower-cases the ASCII letters of `s` and keeps every other character. */
  function ToLowerAscii(s: string): (r: string)
    ensures |r| == |s|
    ensures forall k :: 0 <= k < |s| ==> r[k] == LowerAscii(s[k])
  {
    seq(|s|, k requires 0 <= k < |s| => LowerAscii(s[k]))
  }

  predicate OccursAt(s: string, sub: string, i: nat) {
    i + |sub| <= |s| && s[i..i + |sub|] == sub
  }

  /** `s.includes(sub)`: a text never contains anything longer than itself,
      and it always contains the empty string. */
  predicate Contains(s: string, sub: string)
    ensures Contains(s, sub) ==> |sub| <= |s|
    ensures sub == [] ==> Contains(s, sub)
  {
    assert sub == [] ==> OccursAt(s, sub, 0);
    exists i: nat :: i <= |s| && OccursAt(s, sub, i)
  }

  function TrimStart(s: string): (r: string)
    ensures |r| <= |s| && r == s[|s| - |r|..]
    ensures AllSpace(s[..|s| - |r|])
    ensures r == [] || !IsSpace(r[0])
  {
    if s != [] && IsSpace(s[0]) then
      var r := TrimStart(s[1..]);
      TrimStartStep(s, r);
      r
    else s
  }

  /** A leading whitespace character only lengthens what `TrimStart` cuts. */
  lemma TrimStartStep(s: string, r: string)
    requires s != [] && IsSpace(s[0])
    requires |r| <= |s| - 1 && r == s[1..][|s| - 1 - |r|..] && AllSpace(s[1..][..|s| - 1 - |r|])
    ensures r == s[|s| - |r|..] && AllSpace(s[..|s| - |r|])
  {
    var cut := s[1..][..|s| - 1 - |r|];
    assert s[..|s| - |r|] == [s[0]] + cut;
    assert s[1..][|s| - 1 - |r|..] == s[|s| - |r|..];
    AllSpaceConcat([s[0]], cut);
  }

  function TrimEnd(s: string): (r: string)
    ensures |r| <= |s| && r == s[..|r|]
    ensures AllSpace(s[|r|..])
    ensures r == [] || !IsSpace(r[|r| - 1])
  {
    if s != [] && IsSpace(s[|s| - 1]) then
      var r := TrimEnd(s[..|s| - 1]);
      TrimEndStep(s, r);
      r
    else s
  }

  /** A trailing whitespace character only lengthens what `TrimEnd` cuts. */
  lemma TrimEndStep(s: string, r: string)
    requires s != [] && IsSpace(s[|s| - 1])
    requires |r| <= |s| - 1 && r == s[..|s| - 1][..|r|] && AllSpace(s[..|s| - 1][|r|..])
    ensures r == s[..|r|] && AllSpace(s[|r|..])
  {
    var cut := s[..|s| - 1][|r|..];
    assert s[|r|..] == cut + [s[|s| - 1]];
    assert s[..|s| - 1][..|r|] == s[..|r|];
    AllSpaceConcat(cut, [s[|s| - 1]]);
  }

  /** `s.trim()`: `s` without its leading and trailing whitespace, so it
      neither starts nor ends with whitespace. */
  function Trim(s: string): (r: string)
    ensures |r| <= |s|
    ensures r == [] || (!IsSpace(r[0]) && !IsSpace(r[|r| - 1]))
  {
    TrimEnd(TrimStart(s))
  }

  /** What `trim` promises: the result is a slice of `s` with only
      whitespace cut on either side, and it is empty iff `s` is all
      whitespace. */
  lemma TrimSpec(s: string)
    ensures exists i, j :: 0 <= i <= j <= |s| && Trim(s) == s[i..j]
                           && AllSpace(s[..i]) && AllSpace(s[j..])
    ensures Trim(s) == [] <==> AllSpace(s)
  {
    var i, j := TrimBounds(s);
    var t := Trim(s);
    if t == [] {
      assert s == s[..i] + s[i..j] + s[j..];
      AllSpaceConcat(s[..i], s[j..]);
    } else {
      assert s[i] == t[0];
    }
  }

  /** Where `trim` cuts: `[i, j)` is kept, only whitespace lies outside it. */
  lemma TrimBounds(s: string) returns (i: nat, j: nat)
    ensures i <= j <= |s| && Trim(s) == s[i..j]
    ensures AllSpace(s[..i]) && AllSpace(s[j..])
  {
    var a := TrimStart(s);
    var t := TrimEnd(a);
    i := |s| - |a|;
    j := i + |t|;
    assert a == s[i..];
    assert t == s[i..j];
    assert s[j..] == a[|t|..];
  }

  lemma AllSpaceConcat(x: string, y: string)
    requires AllSpace(x) && AllSpace(y)
    ensures AllSpace(x + y)
  {
    forall k | 0 <= k < |x + y| ensures IsSpace((x + y)[k]) {
      if k < |x| { assert (x + y)[k] == x[k]; } else { assert (x + y)[k] == y[k - |x|]; }
    }
  }
}
