/** The pure parts of the browser UI (frontend/src/App.tsx): the one-line
    summary of a Received header, the history truncation, the subject
    fallback and the hops column. */
module App {
  import opened Text
  import opened Schema
  import Controller

  // ---------------------------------------------------------------------
  // Normalising a Received line (line 17).
  // ---------------------------------------------------------------------

  /** `line.replace(/\r?\n/g, " ")`: every CRLF and every bare LF becomes one
      space; a CR not followed by LF stays. */
  function ReplaceNewlines(s: string): (r: string)
    ensures |r| <= |s|
    ensures forall k :: 0 <= k < |r| ==> r[k] != '\n'
    decreases |s|
  {
    if s == [] then []
    else if s[0] == '\r' && |s| > 1 && s[1] == '\n' then " " + ReplaceNewlines(s[2..])
    else if s[0] == '\n' then " " + ReplaceNewlines(s[1..])
    else [s[0]] + ReplaceNewlines(s[1..])
  }

  /** `.replace(/\s+/g, " ")`, read from a point just after whitespace
      (`inRun`) or not: each maximal whitespace run becomes a single space. */
  function CollapseFrom(s: string, inRun: bool): string {
    if s == [] then []
    else if IsSpace(s[0]) then (if inRun then [] else " ") + CollapseFrom(s[1..], true)
    else [s[0]] + CollapseFrom(s[1..], false)
  }

  /** Collapsing leaves the plain space as the only whitespace, never two
      whitespace characters side by side, and never lengthens the text. */
  lemma {:induction false} CollapseShape(s: string, inRun: bool)
    ensures var r := CollapseFrom(s, inRun);
      |r| <= |s|
      && (forall k :: 0 <= k < |r| && IsSpace(r[k]) ==> r[k] == ' ')
      && (forall k :: 0 <= k < |r| - 1 ==> !(IsSpace(r[k]) && IsSpace(r[k + 1])))
      && (inRun && r != [] ==> !IsSpace(r[0]))
  {
    if s != [] {
      CollapseShape(s[1..], IsSpace(s[0]));
    }
  }

  function CollapseWhitespace(s: string): string {
    CollapseFrom(s, false)
  }

  /** The `raw` field of the summary: the line on one line, single-spaced.
      It has no CR or LF, its only whitespace is the plain space, no two
      whitespace characters are adjacent, and it is never longer than the
      input. */
  function NormalizeLine(line: string): (r: string)
    ensures |r| <= |line|
    ensures forall k :: 0 <= k < |r| ==> r[k] != '\r' && r[k] != '\n'
    ensures forall k :: 0 <= k < |r| && IsSpace(r[k]) ==> r[k] == ' '
    ensures forall k :: 0 <= k < |r| - 1 ==> !(IsSpace(r[k]) && IsSpace(r[k + 1]))
  {
    CollapseShape(ReplaceNewlines(line), false);
    CollapseWhitespace(ReplaceNewlines(line))
  }

  /** CR and LF are whitespace already, so replacing line breaks first does
      not change what collapsing the whitespace gives. */
  lemma {:induction false} CollapseAbsorbsNewlines(s: string, inRun: bool)
    ensures CollapseFrom(ReplaceNewlines(s), inRun) == CollapseFrom(s, inRun)
    decreases |s|
  {
    if s == [] {
    } else if s[0] == '\r' && |s| > 1 && s[1] == '\n' {
      var t := ReplaceNewlines(s[2..]);
      CollapseAbsorbsNewlines(s[2..], true);
      assert (" " + t)[1..] == t;
      assert CollapseFrom(" " + t, inRun) == (if inRun then [] else " ") + CollapseFrom(t, true);
      assert s[1..][1..] == s[2..];
      assert CollapseFrom(s[1..], true) == CollapseFrom(s[2..], true);
    } else if s[0] == '\n' {
      var t := ReplaceNewlines(s[1..]);
      CollapseAbsorbsNewlines(s[1..], true);
      assert (" " + t)[1..] == t;
      assert CollapseFrom(" " + t, inRun) == (if inRun then [] else " ") + CollapseFrom(t, true);
    } else {
      CollapseAbsorbsNewlines(s[1..], IsSpace(s[0]));
      assert ([s[0]] + ReplaceNewlines(s[1..]))[1..] == ReplaceNewlines(s[1..]);
    }
  }

  lemma NormalizeIsCollapse(line: string)
    ensures NormalizeLine(line) == CollapseWhitespace(line)
  {
    CollapseAbsorbsNewlines(line, false);
  }

  lemma {:induction false} ReplaceNewlinesKeeps(s: string)
    requires forall k :: 0 <= k < |s| ==> s[k] != '\n'
    ensures ReplaceNewlines(s) == s
    decreases |s|
  {
    if s != [] {
      ReplaceNewlinesKeeps(s[1..]);
    }
  }

  lemma {:induction false} CollapseKeepsNormalized(r: string, inRun: bool)
    requires forall k :: 0 <= k < |r| && IsSpace(r[k]) ==> r[k] == ' '
    requires forall k :: 0 <= k < |r| - 1 ==> !(IsSpace(r[k]) && IsSpace(r[k + 1]))
    requires inRun && r != [] ==> !IsSpace(r[0])
    ensures CollapseFrom(r, inRun) == r
  {
    if r != [] {
      CollapseKeepsNormalized(r[1..], IsSpace(r[0]));
    }
  }

  /** Normalising twice is normalising once. */
  lemma NormalizeIdempotent(line: string)
    ensures NormalizeLine(NormalizeLine(line)) == NormalizeLine(line)
  {
    var r := NormalizeLine(line);
    ReplaceNewlinesKeeps(r);
    CollapseKeepsNormalized(r, false);
  }

  /** Whether collapsing is inside a whitespace run after reading `a`. */
  function EndsInRun(a: string, inRun: bool): bool {
    if a == [] then inRun else IsSpace(a[|a| - 1])
  }

  lemma {:induction false} CollapseAppend(a: string, b: string, inRun: bool)
    ensures CollapseFrom(a + b, inRun) == CollapseFrom(a, inRun) + CollapseFrom(b, EndsInRun(a, inRun))
    decreases |a|
  {
    if a == [] {
      assert a + b == b;
    } else {
      assert (a + b)[0] == a[0];
      assert (a + b)[1..] == a[1..] + b;
      CollapseAppend(a[1..], b, IsSpace(a[0]));
      EndsInRunStep(a, inRun);
    }
  }

  lemma EndsInRunStep(a: string, inRun: bool)
    requires a != []
    ensures EndsInRun(a[1..], IsSpace(a[0])) == EndsInRun(a, inRun)
  {
    if |a| > 1 {
      assert a[1..][|a[1..]| - 1] == a[|a| - 1];
    }
  }

  lemma {:induction false} CollapseSpaceRun(w: string, inRun: bool)
    requires w != [] && AllSpace(w)
    ensures CollapseFrom(w, inRun) == if inRun then [] else " "
    decreases |w|
  {
    if |w| > 1 {
      CollapseSpaceRun(w[1..], true);
    }
  }

  /** A whitespace run between two non-whitespace stretches becomes exactly
      one space, and the text on either side is normalised on its own. */
  lemma WhitespaceRunBecomesOneSpace(a: string, w: string, b: string)
    requires a == [] || !IsSpace(a[|a| - 1])
    requires w != [] && AllSpace(w)
    requires b == [] || !IsSpace(b[0])
    ensures NormalizeLine(a + w + b) == NormalizeLine(a) + " " + NormalizeLine(b)
  {
    NormalizeIsCollapse(a + w + b);
    NormalizeIsCollapse(a);
    NormalizeIsCollapse(b);
    CollapseAppend(a + w, b, false);
    CollapseAppend(a, w, false);
    CollapseSpaceRun(w, false);
    assert EndsInRun(a + w, false) by { assert (a + w)[|a + w| - 1] == w[|w| - 1]; }
    assert CollapseFrom(b, true) == CollapseFrom(b, false);
  }

  // ---------------------------------------------------------------------
  // The leftmost matches of the four regular expressions (lines 18-21).
  // ---------------------------------------------------------------------

  /** The patterns `summarizeReceived` runs: `/kw\s+([^\s]+)/i` for a
      lower-case keyword, and `/\[(\d{1,3}(?:\.\d{1,3}){3})\]/`. */
  datatype Pattern = KeywordToken(keyword: string) | BracketedIpv4

  function SkipSpaces(s: string, j: nat): (k: nat)
    requires j <= |s|
    ensures j <= k <= |s|
    ensures forall m :: j <= m < k ==> IsSpace(s[m])
    ensures k < |s| ==> !IsSpace(s[k])
    decreases |s| - j
  {
    if j < |s| && IsSpace(s[j]) then SkipSpaces(s, j + 1) else j
  }

  function SkipNonSpaces(s: string, j: nat): (k: nat)
    requires j <= |s|
    ensures j <= k <= |s|
    ensures forall m :: j <= m < k ==> !IsSpace(s[m])
    ensures k < |s| ==> IsSpace(s[k])
    decreases |s| - j
  {
    if j < |s| && !IsSpace(s[j]) then SkipNonSpaces(s, j + 1) else j
  }

  function SkipDigits(s: string, j: nat): (k: nat)
    requires j <= |s|
    ensures j <= k <= |s|
    ensures k < |s| ==> !IsDigit(s[k])
    decreases |s| - j
  {
    if j < |s| && IsDigit(s[j]) then SkipDigits(s, j + 1) else j
  }

  /** Everything `SkipDigits` skips is a digit. */
  lemma {:induction false} SkipDigitsSpan(s: string, j: nat)
    requires j <= |s|
    ensures forall m :: j <= m < SkipDigits(s, j) ==> IsDigit(s[m])
    decreases |s| - j
  {
    if j < |s| && IsDigit(s[j]) {
      SkipDigitsSpan(s, j + 1);
    }
  }

  /** The keyword occurs at `i`, ASCII letters compared without case. */
  predicate KeywordAt(s: string, kw: string, i: nat) {
    i + |kw| <= |s| && ToLowerAscii(s[i..i + |kw|]) == kw
  }

  /** `\d{1,3}` then `term`, from `j`: the position after `term`. The digit
      run must end right at `term`, since giving back digits cannot help. */
  function GroupEnd(s: string, j: nat, term: char): (r: Option<nat>)
    requires j <= |s|
    ensures r.Some? ==> j + 2 <= r.value <= j + 4 && r.value <= |s| && s[r.value - 1] == term
  {
    var k := SkipDigits(s, j);
    if 1 <= k - j <= 3 && k < |s| && s[k] == term then Some(k + 1) else None
  }

  /** The group-1 capture of a match of `p` that starts at `i`, if one does. */
  function CaptureAt(p: Pattern, s: string, i: nat): Option<string>
    requires i <= |s|
  {
    match p
    case KeywordToken(kw) =>
      if !KeywordAt(s, kw, i) then None
      else
        var j := SkipSpaces(s, i + |kw|);
        if j == i + |kw| || j == |s| then None else Some(s[j..SkipNonSpaces(s, j)])
    case BracketedIpv4 => BracketedIpAt(s, i)
  }

  /** `[`, four digit groups separated by dots, `]`, from `i`: the text
      between the brackets. */
  function BracketedIpAt(s: string, i: nat): Option<string>
    requires i <= |s|
  {
    if i < |s| && s[i] == '[' then
      match GroupEnd(s, i + 1, '.')
      case None => None
      case Some(a) =>
        match GroupEnd(s, a, '.')
        case None => None
        case Some(b) =>
          match GroupEnd(s, b, '.')
          case None => None
          case Some(c) =>
            match GroupEnd(s, c, ']')
            case None => None
            case Some(d) => Some(s[i + 1..d - 1])
    else None
  }

  /** The first position, from `i` on, where a match starts. */
  function Leftmost(p: Pattern, s: string, i: nat): (r: Option<nat>)
    requires i <= |s|
    ensures r.Some? ==> i <= r.value <= |s| && CaptureAt(p, s, r.value).Some?
    ensures r.Some? ==> forall m :: i <= m < r.value ==> CaptureAt(p, s, m).None?
    ensures r.None? ==> forall m :: i <= m <= |s| ==> CaptureAt(p, s, m).None?
    decreases |s| - i
  {
    if CaptureAt(p, s, i).Some? then Some(i)
    else if i == |s| then None
    else Leftmost(p, s, i + 1)
  }

  /** What a capture of `p` looks like. */
  predicate WellShaped(p: Pattern, t: string) {
    match p
    case KeywordToken(_) => t != [] && NoSpace(t)
    case BracketedIpv4 => IsDottedQuad(t)
  }

  /** `p.exec(s)?.[1]`: the capture of the leftmost match, or undefined when
      no position matches. */
  function Exec(p: Pattern, s: string): (r: Option<string>)
    ensures r.None? <==> forall i :: 0 <= i <= |s| ==> CaptureAt(p, s, i).None?
    ensures r.Some? ==> exists i :: 0 <= i <= |s| && CaptureAt(p, s, i) == r
                           && forall m :: 0 <= m < i ==> CaptureAt(p, s, m).None?
    ensures r.Some? ==> WellShaped(p, r.value)
  {
    match Leftmost(p, s, 0)
    case None => None
    case Some(i) =>
      CaptureShape(p, s, i);
      CaptureAt(p, s, i)
  }

  lemma CaptureShape(p: Pattern, s: string, i: nat)
    requires i <= |s| && CaptureAt(p, s, i).Some?
    ensures WellShaped(p, CaptureAt(p, s, i).value)
  {
    match p
    case KeywordToken(kw) => KeywordCaptureSound(s, kw, i);
    case BracketedIpv4 => IpCaptureSound(s, i);
  }

  /** The keyword at `i`, then the whitespace run `[i + |kw|, j)`, then the
      maximal non-whitespace run `[j, e)`. */
  predicate KeywordMatch(s: string, kw: string, i: nat, j: nat, e: nat) {
    KeywordAt(s, kw, i) && i + |kw| < j < e <= |s|
    && AllSpace(s[i + |kw|..j]) && NoSpace(s[j..e]) && (e == |s| || IsSpace(s[e]))
  }

  /** A keyword match at `i` captures the maximal non-whitespace run that
      follows the keyword and at least one whitespace character. */
  lemma KeywordCaptureSound(s: string, kw: string, i: nat)
    requires i <= |s| && CaptureAt(KeywordToken(kw), s, i).Some?
    ensures var t := CaptureAt(KeywordToken(kw), s, i).value;
      t != [] && NoSpace(t)
      && exists j: nat, e: nat :: KeywordMatch(s, kw, i, j, e) && t == s[j..e]
  {
    var j := SkipSpaces(s, i + |kw|);
    var e := SkipNonSpaces(s, j);
    var w, t := s[i + |kw|..j], s[j..e];
    forall m | 0 <= m < |w| ensures IsSpace(w[m]) {
      assert w[m] == s[i + |kw| + m];
    }
    forall m | 0 <= m < |t| ensures !IsSpace(t[m]) {
      assert t[m] == s[j + m];
    }
    assert KeywordMatch(s, kw, i, j, e);
  }

  /** Conversely: the keyword at `i`, a whitespace run, then a maximal
      non-whitespace run is a match at `i` capturing that run. */
  lemma KeywordCaptureComplete(s: string, kw: string, i: nat, j: nat, e: nat)
    requires KeywordMatch(s, kw, i, j, e)
    ensures CaptureAt(KeywordToken(kw), s, i) == Some(s[j..e])
  {
    forall m | i + |kw| <= m < j ensures IsSpace(s[m]) {
      assert s[i + |kw|..j][m - i - |kw|] == s[m];
    }
    forall m | j <= m < e ensures !IsSpace(s[m]) {
      assert s[j..e][m - j] == s[m];
    }
    SkipSpacesExact(s, i + |kw|, j);
    SkipNonSpacesExact(s, j, e);
  }

  lemma {:induction false} SkipSpacesExact(s: string, j: nat, k: nat)
    requires j <= k < |s| && !IsSpace(s[k])
    requires forall m :: j <= m < k ==> IsSpace(s[m])
    ensures SkipSpaces(s, j) == k
    decreases k - j
  {
    if j < k { SkipSpacesExact(s, j + 1, k); }
  }

  lemma {:induction false} SkipNonSpacesExact(s: string, j: nat, k: nat)
    requires j <= k <= |s| && (k == |s| || IsSpace(s[k]))
    requires forall m :: j <= m < k ==> !IsSpace(s[m])
    ensures SkipNonSpaces(s, j) == k
    decreases k - j
  {
    if j < k { SkipNonSpacesExact(s, j + 1, k); }
  }

  lemma {:induction false} SkipDigitsExact(s: string, j: nat, k: nat)
    requires j <= k < |s| && !IsDigit(s[k])
    requires forall m :: j <= m < k ==> IsDigit(s[m])
    ensures SkipDigits(s, j) == k
    decreases k - j
  {
    if j < k { SkipDigitsExact(s, j + 1, k); }
  }

  /** One to three digits fill `[j, k)` of `s`. */
  predicate DigitsBetween(s: string, j: nat, k: nat) {
    j < k <= |s| && k - j <= 3 && forall m :: j <= m < k ==> IsDigit(s[m])
  }

  /** Dots at `a`, `b` and `c` split `q` into four groups of one to three digits. */
  predicate DotsAt(q: string, a: nat, b: nat, c: nat) {
    a < b < c < |q| && q[a] == '.' && q[b] == '.' && q[c] == '.'
    && DigitsBetween(q, 0, a) && DigitsBetween(q, a + 1, b)
    && DigitsBetween(q, b + 1, c) && DigitsBetween(q, c + 1, |q|)
  }

  /** Four groups of one to three decimal digits joined by three dots (the
      values are not range-checked). */
  predicate IsDottedQuad(q: string) {
    exists a: nat, b: nat, c: nat | a < b < c < |q| :: DotsAt(q, a, b, c)
  }

  /** `[`, a dotted quad `q` and `]`, starting at `i`. */
  predicate IpMatch(s: string, i: nat, q: string) {
    IsDottedQuad(q) && i + 1 + |q| < |s|
    && s[i] == '[' && s[i + 1..i + 1 + |q|] == q && s[i + 1 + |q|] == ']'
  }

  /** An address match at `i` captures a dotted quad that sits between `[`
      at `i` and the next `]`. */
  lemma IpCaptureSound(s: string, i: nat)
    requires i <= |s| && CaptureAt(BracketedIpv4, s, i).Some?
    ensures IpMatch(s, i, CaptureAt(BracketedIpv4, s, i).value)
  {
    var a, b, c, d := MatchLayout(s, i);
    LayoutIsMatch(s, i, a, b, c, d);
  }

  /** Conversely: `[`, a dotted quad and `]` at `i` are a match at `i`
      capturing the quad. */
  lemma IpCaptureComplete(s: string, i: nat, q: string)
    requires IpMatch(s, i, q)
    ensures CaptureAt(BracketedIpv4, s, i) == Some(q)
  {
    var a, b, c, d := MatchHasLayout(s, i, q);
    LayoutMatches(s, i, a, b, c, d);
  }

  /** `[` at `i`, digit groups ending at the dots `a`, `b`, `c`, and the last
      group ending at the bracket `]` at `d`. */
  predicate QuadLayout(s: string, i: nat, a: nat, b: nat, c: nat, d: nat) {
    d < |s| && i < |s| && s[i] == '[' && s[d] == ']'
    && DigitsBetween(s, i + 1, a) && DigitsBetween(s, a + 1, b)
    && DigitsBetween(s, b + 1, c) && DigitsBetween(s, c + 1, d)
    && s[a] == '.' && s[b] == '.' && s[c] == '.'
  }

  /** The layout of an address match, read off the matcher. */
  lemma MatchLayout(s: string, i: nat) returns (a: nat, b: nat, c: nat, d: nat)
    requires i <= |s| && CaptureAt(BracketedIpv4, s, i).Some?
    ensures QuadLayout(s, i, a, b, c, d)
    ensures CaptureAt(BracketedIpv4, s, i) == Some(s[i + 1..d])
  {
    var a1 := GroupEnd(s, i + 1, '.').value;
    var b1 := GroupEnd(s, a1, '.').value;
    var c1 := GroupEnd(s, b1, '.').value;
    var d1 := GroupEnd(s, c1, ']').value;
    DigitsOfGroup(s, i + 1, a1, '.');
    DigitsOfGroup(s, a1, b1, '.');
    DigitsOfGroup(s, b1, c1, '.');
    DigitsOfGroup(s, c1, d1, ']');
    a, b, c, d := a1 - 1, b1 - 1, c1 - 1, d1 - 1;
  }

  /** A group the matcher accepted: its digits, then `term`. */
  lemma DigitsOfGroup(s: string, j: nat, e: nat, term: char)
    requires j <= |s| && GroupEnd(s, j, term) == Some(e)
    ensures DigitsBetween(s, j, e - 1) && s[e - 1] == term
  {
    SkipDigitsSpan(s, j);
  }

  /** The text between the brackets of a layout is a dotted quad. */
  lemma LayoutIsMatch(s: string, i: nat, a: nat, b: nat, c: nat, d: nat)
    requires QuadLayout(s, i, a, b, c, d)
    ensures IpMatch(s, i, s[i + 1..d])
  {
    var o, q := i + 1, s[i + 1..d];
    var x, y, z := a - o, b - o, c - o;
    assert o + |q| == d && s[o..o + |q|] == q;
    OctetOfText(s, o, q, 0, x);
    OctetOfText(s, o, q, x + 1, y);
    OctetOfText(s, o, q, y + 1, z);
    OctetOfText(s, o, q, z + 1, |q|);
    assert q[x] == s[a] && q[y] == s[b] && q[z] == s[c];
    assert DotsAt(q, x, y, z);
    assert IsDottedQuad(q);
  }

  lemma OctetOfText(s: string, o: nat, q: string, j: nat, k: nat)
    requires o + |q| <= |s| && s[o..o + |q|] == q
    requires j <= k <= |q| && DigitsBetween(s, o + j, o + k)
    ensures DigitsBetween(q, j, k)
  {
    forall m | j <= m < k ensures IsDigit(q[m]) {
      assert q[m] == s[o..o + |q|][m] == s[o + m];
    }
  }

  /** The layout of a bracketed dotted quad. */
  lemma MatchHasLayout(s: string, i: nat, q: string) returns (a: nat, b: nat, c: nat, d: nat)
    requires IpMatch(s, i, q)
    ensures QuadLayout(s, i, a, b, c, d) && d == i + 1 + |q|
  {
    var o := i + 1;
    var x: nat, y: nat, z: nat :| x < y < z < |q| && DotsAt(q, x, y, z);
    a, b, c, d := o + x, o + y, o + z, o + |q|;
    OctetInText(s, o, q, 0, x);
    assert DigitsBetween(s, i + 1, a);
    OctetInText(s, o, q, x + 1, y);
    assert DigitsBetween(s, a + 1, b);
    OctetInText(s, o, q, y + 1, z);
    assert DigitsBetween(s, b + 1, c);
    OctetInText(s, o, q, z + 1, |q|);
    assert DigitsBetween(s, c + 1, d);
    CharInText(s, o, q, x);
    CharInText(s, o, q, y);
    CharInText(s, o, q, z);
  }

  lemma CharInText(s: string, o: nat, q: string, k: nat)
    requires o + |q| <= |s| && s[o..o + |q|] == q && k < |q|
    ensures s[o + k] == q[k]
  {
    assert s[o..o + |q|][k] == s[o + k];
  }

  lemma OctetInText(s: string, o: nat, q: string, j: nat, k: nat)
    requires o + |q| <= |s| && s[o..o + |q|] == q
    requires j <= k <= |q| && DigitsBetween(q, j, k)
    ensures DigitsBetween(s, o + j, o + k)
  {
    forall m | o + j <= m < o + k ensures IsDigit(s[m]) {
      assert s[m] == s[o..o + |q|][m - o] == q[m - o];
    }
  }

  /** A layout is what the matcher accepts. */
  lemma LayoutMatches(s: string, i: nat, a: nat, b: nat, c: nat, d: nat)
    requires QuadLayout(s, i, a, b, c, d)
    ensures CaptureAt(BracketedIpv4, s, i) == Some(s[i + 1..d])
  {
    GroupEndOfDigits(s, i + 1, a, '.');
    GroupEndOfDigits(s, a + 1, b, '.');
    GroupEndOfDigits(s, b + 1, c, '.');
    GroupEndOfDigits(s, c + 1, d, ']');
    CaptureFromGroups(s, i, a, b, c, d);
  }

  /** Digits in `[j, k)` followed by `term` are one group for the matcher. */
  lemma GroupEndOfDigits(s: string, j: nat, k: nat, term: char)
    requires DigitsBetween(s, j, k) && k < |s| && s[k] == term && !IsDigit(term)
    ensures GroupEnd(s, j, term) == Some(k + 1)
  {
    SkipDigitsExact(s, j, k);
  }

  /** The matcher's four groups end just after the dots `a`, `b`, `c` and
      the bracket `d`. */
  lemma CaptureFromGroups(s: string, i: nat, a: nat, b: nat, c: nat, d: nat)
    requires i < |s| && s[i] == '['
    requires a < |s| && GroupEnd(s, i + 1, '.') == Some(a + 1)
    requires b < |s| && GroupEnd(s, a + 1, '.') == Some(b + 1)
    requires c < |s| && GroupEnd(s, b + 1, '.') == Some(c + 1)
    requires GroupEnd(s, c + 1, ']') == Some(d + 1)
    ensures CaptureAt(BracketedIpv4, s, i) == Some(s[i + 1..d])
  {
    var e := d + 1;
    assert BracketedIpAt(s, i) == Some(s[i + 1..e - 1]);
  }

  /** A keyword field is undefined exactly when no occurrence of the keyword
      is followed by whitespace and then a token. */
  lemma KeywordUndefinedIffNoMatch(s: string, kw: string)
    ensures Exec(KeywordToken(kw), s).None? <==>
      forall i: nat, j: nat, e: nat :: !KeywordMatch(s, kw, i, j, e)
  {
    if Exec(KeywordToken(kw), s).None? {
      forall i: nat, j: nat, e: nat | KeywordMatch(s, kw, i, j, e) ensures false {
        KeywordCaptureComplete(s, kw, i, j, e);
      }
    } else {
      var i :| 0 <= i <= |s| && CaptureAt(KeywordToken(kw), s, i).Some?;
      KeywordCaptureSound(s, kw, i);
    }
  }

  /** The address field is undefined exactly when no bracketed dotted quad
      occurs in the line. */
  lemma IpUndefinedIffNoMatch(s: string)
    ensures Exec(BracketedIpv4, s).None? <==> forall i: nat, q :: !IpMatch(s, i, q)
  {
    if Exec(BracketedIpv4, s).None? {
      forall i: nat, q | IpMatch(s, i, q) ensures false {
        IpCaptureComplete(s, i, q);
      }
    } else {
      var i :| 0 <= i <= |s| && CaptureAt(BracketedIpv4, s, i).Some?;
      IpCaptureSound(s, i);
    }
  }

  /** Matching is by position, not by word: in `standby mx` the keyword `by`
      is found inside `standby`. */
  lemma ByMatchesInsideWord()
    ensures Exec(KeywordToken("by"), "standby mx") == Some("mx")
  {
    var s := "standby mx";
    forall m | 0 <= m < 5 ensures CaptureAt(KeywordToken("by"), s, m).None? {
      assert ToLowerAscii(s[m..m + 2])[1] == LowerAscii(s[m + 1]);
    }
    KeywordCaptureComplete(s, "by", 5, 8, 10);
    assert s[8..10] == "mx";
  }

  // ---------------------------------------------------------------------
  // summarizeReceived (lines 16-23).
  // ---------------------------------------------------------------------

  datatype ReceivedSummary = ReceivedSummary(
    from: Option<string>,
    byHost: Option<string>,  // the `by` field
    withProto: Option<string>,
    ip: Option<string>,
    raw: string)

  /** The best-effort reading of one Received line shown in the UI. */
  function SummarizeReceived(line: string): (r: ReceivedSummary)
    ensures r.raw == NormalizeLine(line)
    ensures r.from == Exec(KeywordToken("from"), r.raw)
    ensures r.byHost == Exec(KeywordToken("by"), r.raw)
    ensures r.withProto == Exec(KeywordToken("with"), r.raw)
    ensures r.ip == Exec(BracketedIpv4, r.raw)
    ensures r.from.Some? ==> r.from.value != [] && NoSpace(r.from.value)
    ensures r.byHost.Some? ==> r.byHost.value != [] && NoSpace(r.byHost.value)
    ensures r.withProto.Some? ==> r.withProto.value != [] && NoSpace(r.withProto.value)
    ensures r.ip.Some? ==> IsDottedQuad(r.ip.value)
  {
    var one := NormalizeLine(line);
    ReceivedSummary(
      Exec(KeywordToken("from"), one), Exec(KeywordToken("by"), one),
      Exec(KeywordToken("with"), one), Exec(BracketedIpv4, one), one)
  }

  // ---------------------------------------------------------------------
  // History truncation, subject fallback, hops column.
  // ---------------------------------------------------------------------

  /** The parsed JSON body of the history response. */
  datatype HistoryBody<T> = JsonArray(items: seq<T>) | NotArray

  const HistoryShown := 10

  /** Line 102: `Array.isArray(data) ? data.slice(0, 10) : []`. */
  function LoadHistory<T>(data: HistoryBody<T>): (r: seq<T>)
    ensures |r| <= HistoryShown
    ensures data.NotArray? ==> r == []
    ensures data.JsonArray? ==> |r| == Min(HistoryShown, |data.items|) && r == data.items[..|r|]
  {
    match data
    case JsonArray(items) => items[..Min(HistoryShown, |items|)]
    case NotArray => []
  }

  /** Line 78: `subject.trim() || exampleSubject`. */
  function SubjectQuery(input: string, exampleSubject: string): (q: string)
    ensures AllSpace(input) ==> q == exampleSubject
    ensures !AllSpace(input) ==> q == Trim(input) && q != [] && !IsSpace(q[0]) && !IsSpace(q[|q| - 1])
  {
    TrimSpec(input);
    var t := Trim(input);
    if t != [] then t else exampleSubject
  }

  /** Line 383: `h.receivingChain?.length || 0`. */
  function HopsColumn(chain: Option<seq<string>>): (n: nat)
    ensures chain.None? ==> n == 0
    ensures chain.Some? ==> n == |chain.value|
  {
    match chain
    case Some(c) => |c|
    case None => 0
  }

  /** The hops column of a history row shows the hop count the ingestion stored. */
  lemma HopsColumnShowsStoredHops(rec: MailRecord, now: int)
    requires WellFormed(rec)
    ensures HopsColumn(Some(Controller.Shape(ViewOf(rec), now).receivingChain)) == rec.hops
  {
    Controller.ShapeOfStoredRecord(rec, now);
  }
}
