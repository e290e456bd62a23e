/** The handful of JavaScript string operations the connector relies on,
    each with the exact edge-case behaviour of the ECMAScript built-in:
    `trim`, `indexOf` of one character, `includes`, the anchored
    non-global `replace(/\/$/, '')`, and `split` on a one-character
    separator. */
module Text {
  import opened JsValue

  // ---------------------------------------------------------------------
  // trim
  // ---------------------------------------------------------------------

  /** ECMAScript WhiteSpace and LineTerminator code points: the characters
      `String.prototype.trim` removes. */
  predicate IsSpace(c: char) {
    || c == ' ' || c == '\t' || c == '\n' || c == '\r'
    || c == '\U{000B}' || c == '\U{000C}' || c == '\U{00A0}' || c == '\U{1680}'
    || ('\U{2000}' <= c <= '\U{200A}')
    || c == '\U{2028}' || c == '\U{2029}' || c == '\U{202F}' || c == '\U{205F}'
    || c == '\U{3000}' || c == '\U{FEFF}'
  }

  ghost predicate AllSpace(s: string) {
    forall k :: 0 <= k < |s| ==> IsSpace(s[k])
  }

  /** Neither end of `s` is white space. */
  predicate IsTrimmed(s: string) {
    s == [] || (!IsSpace(s[0]) && !IsSpace(s[|s| - 1]))
  }

  /** How many white-space characters `s` starts with. */
  function LeadingSpace(s: string): (n: nat)
    ensures n <= |s|
    ensures forall k :: 0 <= k < n ==> IsSpace(s[k])
    ensures n < |s| ==> !IsSpace(s[n])
  {
    SkipSpace(s, 0)
  }

  /** The first position at or after `i` that does not hold white space. */
  function SkipSpace(s: string, i: nat): (n: nat)
    requires i <= |s|
    ensures i <= n <= |s|
    ensures forall k :: i <= k < n ==> IsSpace(s[k])
    ensures n < |s| ==> !IsSpace(s[n])
    decreases |s| - i
  {
    if i < |s| && IsSpace(s[i]) then SkipSpace(s, i + 1) else i
  }

  /** How many white-space characters `s` ends with. */
  function TrailingSpace(s: string): (n: nat)
    ensures n <= |s|
    ensures forall k :: |s| - n <= k < |s| ==> IsSpace(s[k])
    ensures n < |s| ==> !IsSpace(s[|s| - n - 1])
  {
    |s| - SkipSpaceBack(s, |s|)
  }

  /** The last position at or before `e` that follows a character that is
      not white space, or 0. */
  function SkipSpaceBack(s: string, e: nat): (n: nat)
    requires e <= |s|
    ensures n <= e
    ensures forall k :: n <= k < e ==> IsSpace(s[k])
    ensures 0 < n ==> !IsSpace(s[n - 1])
  {
    if 0 < e && IsSpace(s[e - 1]) then SkipSpaceBack(s, e - 1) else e
  }

  /** `s.trim()`: `s` without its leading and its trailing white space;
      nothing is left of text that is all white space. */
  function Trim(s: string): (r: string)
    ensures IsTrimmed(r)
    ensures LeadingSpace(s) + |r| <= |s|
    ensures forall j :: 0 <= j < |r| ==> r[j] == s[LeadingSpace(s) + j]
  {
    var a := LeadingSpace(s);
    var b := TrailingSpace(s);
    if a + b >= |s| then [] else s[a..|s| - b]
  }

  /** `r` sits in `s` at offset `a` with only white space around it. */
  ghost predicate Strips(s: string, r: string, a: int) {
    && 0 <= a && a + |r| <= |s|
    && (forall j :: 0 <= j < |r| ==> r[j] == s[a + j])
    && (forall j :: 0 <= j < a ==> IsSpace(s[j]))
    && (forall j :: a + |r| <= j < |s| ==> IsSpace(s[j]))
  }

  /** What `Trim` removes is white space only, and what it keeps is the
      infix that starts where the leading white space ends. */
  lemma TrimStrips(s: string)
    ensures Strips(s, Trim(s), LeadingSpace(s))
  {
    var a, b := LeadingSpace(s), TrailingSpace(s);
    if a + b < |s| {
      var r := s[a..|s| - b];
      forall j | 0 <= j < |r|
        ensures r[j] == s[a + j]
      {
      }
    }
  }

  /** The three properties in `LeadingSpace`'s contract pin the count down. */
  lemma LeadingSpaceUnique(s: string, n: nat)
    requires n <= |s| && (forall k :: 0 <= k < n ==> IsSpace(s[k])) && (n < |s| ==> !IsSpace(s[n]))
    ensures LeadingSpace(s) == n
  {
  }

  lemma TrailingSpaceUnique(s: string, n: nat)
    requires n <= |s| && (forall k :: |s| - n <= k < |s| ==> IsSpace(s[k]))
    requires n < |s| ==> !IsSpace(s[|s| - n - 1])
    ensures TrailingSpace(s) == n
  {
  }

  /** What `trim` keeps is determined by the shape of the text: a
      non-empty infix whose ends are not white space, with only white space
      around it. */
  lemma TrimUnique(x: string, a: nat, r: string)
    requires Strips(x, r, a) && IsTrimmed(r) && r != []
    ensures Trim(x) == r
  {
    assert x[a] == r[0];
    LeadingSpaceUnique(x, a);
    assert x[a + |r| - 1] == r[|r| - 1];
    TrailingSpaceUnique(x, |x| - a - |r|);
    assert Trim(x) == x[a..a + |r|];
  }

  /** Text that is all white space trims to nothing. */
  lemma TrimAllSpace(x: string)
    requires AllSpace(x)
    ensures Trim(x) == []
  {
    LeadingSpaceUnique(x, |x|);
  }

  /** White space around white space around `r` is white space around `r`. */
  lemma StripsCompose(x: string, u: string, a: int, r: string, o: int)
    requires Strips(x, u, a) && Strips(u, r, o)
    ensures Strips(x, r, a + o)
  {
    forall j | a <= j < a + o
      ensures IsSpace(x[j])
    {
      assert x[j] == u[j - a];
    }
    forall j | a + o + |r| <= j < a + |u|
      ensures IsSpace(x[j])
    {
      assert x[j] == u[j - a];
    }
  }

  /** Trimming `u` with white space around it is trimming `u`. */
  lemma TrimInfix(x: string, u: string, a: int)
    requires Strips(x, u, a)
    ensures Trim(x) == Trim(u)
  {
    var r := Trim(u);
    TrimStrips(u);
    StripsCompose(x, u, a, r, LeadingSpace(u));
    if r == [] {
      TrimAllSpace(x);
    } else {
      TrimUnique(x, a + LeadingSpace(u), r);
    }
  }

  /** Padding on both sides is white space around the text. */
  lemma PaddedStrips(p: string, s: string, q: string)
    requires AllSpace(p) && AllSpace(q)
    ensures Strips(p + s + q, s, |p|)
  {
    var x := p + s + q;
    forall j | 0 <= j < |p|
      ensures IsSpace(x[j])
    {
      assert x[j] == p[j];
    }
    forall j | |p| + |s| <= j < |x|
      ensures IsSpace(x[j])
    {
      assert x[j] == q[j - |p| - |s|];
    }
  }

  /** White space added on either side does not change what `trim` keeps. */
  lemma TrimPadded(p: string, s: string, q: string)
    requires AllSpace(p) && AllSpace(q)
    ensures Trim(p + s + q) == Trim(s)
  {
    PaddedStrips(p, s, q);
    TrimInfix(p + s + q, s, |p|);
  }

  /** Trimming a line with a separator that is not white space removes
      white space only in front of the first part and behind the last. */
  lemma TrimJoin(k: string, c: char, v: string)
    requires !IsSpace(c)
    ensures Trim(k + [c] + v) == k[LeadingSpace(k)..] + [c] + v[..|v| - TrailingSpace(v)]
  {
    var s := k + [c] + v;
    var m := k[LeadingSpace(k)..] + [c] + v[..|v| - TrailingSpace(v)];
    JoinStrips(k, c, v);
    JoinTrimmed(k, c, v);
    TrimUnique(s, LeadingSpace(k), m);
  }

  lemma JoinStrips(k: string, c: char, v: string)
    ensures Strips(k + [c] + v, k[LeadingSpace(k)..] + [c] + v[..|v| - TrailingSpace(v)], LeadingSpace(k))
  {
    var s := k + [c] + v;
    var L, T := LeadingSpace(k), TrailingSpace(v);
    var m := k[L..] + [c] + v[..|v| - T];
    forall j | 0 <= j < |m|
      ensures m[j] == s[L + j]
    {
      if j < |k| - L {
        assert m[j] == k[L..][j] == k[L + j];
      } else if j == |k| - L {
        assert m[j] == c == s[|k|];
      } else {
        assert m[j] == v[..|v| - T][j - (|k| - L) - 1];
      }
    }
    forall j | 0 <= j < L
      ensures IsSpace(s[j])
    {
      assert s[j] == k[j];
    }
    forall j | L + |m| <= j < |s|
      ensures IsSpace(s[j])
    {
      assert s[j] == v[j - |k| - 1];
    }
  }

  lemma JoinTrimmed(k: string, c: char, v: string)
    requires !IsSpace(c)
    ensures IsTrimmed(k[LeadingSpace(k)..] + [c] + v[..|v| - TrailingSpace(v)])
  {
    var L, T := LeadingSpace(k), TrailingSpace(v);
    var m := k[L..] + [c] + v[..|v| - T];
    assert m[0] == if L < |k| then k[L] else c;
    assert m[|m| - 1] == if T < |v| then v[|v| - T - 1] else c;
  }

  /** Dropping the leading white space first does not change what `trim`
      keeps. */
  lemma TrimDropLeading(s: string)
    ensures Trim(s[LeadingSpace(s)..]) == Trim(s)
  {
    var L := LeadingSpace(s);
    var u := s[L..];
    forall j | 0 <= j < |u|
      ensures u[j] == s[L + j]
    {
    }
    TrimInfix(s, u, L);
  }

  /** Dropping the trailing white space first does not change what `trim`
      keeps. */
  lemma TrimDropTrailing(s: string)
    ensures Trim(s[..|s| - TrailingSpace(s)]) == Trim(s)
  {
    var u := s[..|s| - TrailingSpace(s)];
    forall j | 0 <= j < |u|
      ensures u[j] == s[j]
    {
    }
    TrimInfix(s, u, 0);
  }

  /** A trimmed text that is not empty starts where the leading white space
      ends. */
  lemma FirstOfTrim(k: string)
    ensures LeadingSpace(k) < |k| <==> Trim(k) != []
    ensures Trim(k) != [] ==> Trim(k)[0] == k[LeadingSpace(k)]
  {
    TrimStrips(k);
  }

  /** Trimming changes nothing exactly when neither end is white space. */
  lemma TrimIdentity(s: string)
    ensures Trim(s) == s <==> IsTrimmed(s)
  {
    if IsTrimmed(s) && s != [] {
      assert LeadingSpace(s) == 0;
      assert TrailingSpace(s) == 0;
      assert s[0..|s|] == s;
    }
  }

  /** Trimming twice is trimming once. */
  lemma TrimIdempotent(s: string)
    ensures Trim(Trim(s)) == Trim(s)
  {
    TrimIdentity(Trim(s));
  }

  // ---------------------------------------------------------------------
  // indexOf, includes
  // ---------------------------------------------------------------------

  /** `s.indexOf(c)`: the first position holding `c`, or None for -1. */
  function IndexOf(s: string, c: char): (r: Option<nat>)
    ensures r.Some? ==> r.value < |s| && s[r.value] == c
    ensures r.Some? ==> forall j :: 0 <= j < r.value ==> s[j] != c
    ensures r.None? <==> c !in s
  {
    IndexFrom(s, c, 0)
  }

  /** `s.indexOf(c, i)`: the search starts at position `i`. */
  function IndexFrom(s: string, c: char, i: nat): (r: Option<nat>)
    requires i <= |s|
    ensures r.Some? ==> i <= r.value < |s| && s[r.value] == c
    ensures r.Some? ==> forall j :: i <= j < r.value ==> s[j] != c
    ensures r.None? <==> forall j :: i <= j < |s| ==> s[j] != c
    decreases |s| - i
  {
    if i == |s| then None
    else if s[i] == c then Some(i)
    else IndexFrom(s, c, i + 1)
  }

  ghost predicate OccursAt(s: string, sub: string, i: int) {
    0 <= i && i + |sub| <= |s| && s[i..i + |sub|] == sub
  }

  /** `s.includes(sub)`: `sub` appears somewhere in `s`, at any offset and
      whatever follows it. */
  function Includes(s: string, sub: string): (b: bool)
    ensures b ==> |sub| <= |s|
    // An occurrence at the very end is found as well.
    ensures |sub| <= |s| && s[|s| - |sub|..] == sub ==> b
    decreases |s|
  {
    |sub| <= |s| && (s[..|sub|] == sub ||
      (assert |sub| < |s| ==> s[1..][|s| - 1 - |sub|..] == s[|s| - |sub|..];
       Includes(s[1..], sub)))
  }

  /** `Includes` holds exactly when some offset of `s` starts a copy of
      `sub`. */
  lemma {:induction false} IncludesIff(s: string, sub: string)
    ensures Includes(s, sub) <==> exists i :: OccursAt(s, sub, i)
    decreases |s|
  {
    if |sub| <= |s| {
      if s[..|sub|] == sub {
        assert OccursAt(s, sub, 0);
      } else {
        forall i | OccursAt(s, sub, i) && i > 0
          ensures OccursAt(s[1..], sub, i - 1)
        {
          assert s[1..][i - 1..i - 1 + |sub|] == s[i..i + |sub|];
        }
        forall i | OccursAt(s[1..], sub, i)
          ensures OccursAt(s, sub, i + 1)
        {
          assert s[i + 1..i + 1 + |sub|] == s[1..][i..i + |sub|];
        }
        IncludesIff(s[1..], sub);
      }
    }
  }

  /** Text appended after an occurrence does not remove it. */
  lemma IncludesAppend(s: string, t: string, sub: string)
    requires Includes(s, sub)
    ensures Includes(s + t, sub)
  {
    IncludesIff(s, sub);
    var i :| OccursAt(s, sub, i);
    assert (s + t)[i..i + |sub|] == s[i..i + |sub|];
    assert OccursAt(s + t, sub, i);
    IncludesIff(s + t, sub);
  }

  /** A string contains itself wherever it stands. */
  lemma IncludesMiddle(s: string, sub: string, t: string)
    ensures Includes(s + sub + t, sub)
  {
    var w := s + sub + t;
    assert w[|s|..|s| + |sub|] == sub;
    assert OccursAt(w, sub, |s|);
    IncludesIff(w, sub);
  }

  // ---------------------------------------------------------------------
  // replace(/\/$/, '')
  // ---------------------------------------------------------------------

  predicate EndsWithSlash(s: string) {
    |s| > 0 && s[|s| - 1] == '/'
  }

  /** `s.replace(/\/$/, '')`: the pattern is anchored at the end and not
      global, so one final '/' is removed and nothing else changes. */
  function TrimTrailingSlash(s: string): (r: string)
    ensures EndsWithSlash(s) ==> r + "/" == s
    ensures !EndsWithSlash(s) ==> r == s
  {
    if EndsWithSlash(s) then s[..|s| - 1] else s
  }

  /** Only one slash goes: a base ending in "//" still ends in '/' after
      cleaning, so cleaning is not idempotent. */
  lemma TrimTrailingSlashOnce(b: string)
    ensures TrimTrailingSlash(b + "//") == b + "/"
    ensures TrimTrailingSlash(TrimTrailingSlash(b + "//")) == b
  {
    assert (b + "//")[..|b| + 1] == b + "/";
    assert (b + "/")[..|b|] == b;
  }

  // ---------------------------------------------------------------------
  // split on one character
  // ---------------------------------------------------------------------

  /** `s.split(sep)` for a one-character separator: the pieces between
      separators, always at least one (the empty string splits to [""]). */
  function Split(s: string, sep: char): (parts: seq<string>)
    ensures |parts| >= 1
    ensures forall k :: 0 <= k < |parts| ==> sep !in parts[k]
    ensures Join(parts, sep) == s
    decreases |s|
  {
    var eq := IndexOf(s, sep);
    if eq.None? then [s]
    else
      var i := eq.value;
      var rest := Split(s[i + 1..], sep);
      assert s == s[..i] + [sep] + s[i + 1..];
      [s[..i]] + rest
  }

  lemma SplitAt(s: string, sep: char, i: nat)
    requires IndexOf(s, sep) == Some(i)
    ensures Split(s, sep) == [s[..i]] + Split(s[i + 1..], sep)
  {
  }

  /** The pieces glued back with the separator between them. */
  function Join(parts: seq<string>, sep: char): string
    requires |parts| >= 1
  {
    if |parts| == 1 then parts[0] else parts[0] + [sep] + Join(parts[1..], sep)
  }

  /** Splitting a joined list of separator-free pieces gives the pieces
      back (the converse of the round trip in `Split`'s contract). */
  lemma {:induction false} SplitJoin(parts: seq<string>, sep: char)
    requires |parts| >= 1
    requires forall k :: 0 <= k < |parts| ==> sep !in parts[k]
    ensures Split(Join(parts, sep), sep) == parts
    decreases |parts|
  {
    var s := Join(parts, sep);
    if |parts| == 1 {
      assert IndexOf(s, sep).None?;
    } else {
      var tail := Join(parts[1..], sep);
      FirstSeparator(parts[0], sep, tail);
      SplitAt(s, sep, |parts[0]|);
      SplitJoin(parts[1..], sep);
      assert [parts[0]] + parts[1..] == parts;
    }
  }

  /** The first separator of `a + [sep] + b` is the one after `a`, when `a`
      has none. */
  lemma FirstSeparator(a: string, sep: char, b: string)
    requires sep !in a
    ensures IndexOf(a + [sep] + b, sep) == Some(|a|)
    ensures (a + [sep] + b)[..|a|] == a
    ensures (a + [sep] + b)[|a| + 1..] == b
  {
    var s := a + [sep] + b;
    assert s[|a|] == sep;
    assert forall j :: 0 <= j < |a| ==> s[j] == a[j];
  }
}
