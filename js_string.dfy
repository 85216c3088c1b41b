/** The JavaScript string primitives the client relies on, over Dafny's
    `string` (a sequence of Unicode scalar values). */
module JsString {
  import opened Wrappers

  /** The code points JavaScript counts as WhiteSpace or LineTerminator: the
      set `String.prototype.trim` strips and the regular-expression class `\s`
      matches. */
  predicate IsWhitespace(c: char) {
    || c == '\t' || c == '\n' || c == '\U{B}' || c == '\U{C}' || c == '\r'
    || c == ' ' || c == '\U{A0}' || c == '\U{1680}'
    || ('\U{2000}' <= c <= '\U{200A}')
    || c == '\U{2028}' || c == '\U{2029}' || c == '\U{202F}' || c == '\U{205F}'
    || c == '\U{3000}' || c == '\U{FEFF}'
  }

  predicate AllWhitespace(s: string) {
    forall k :: 0 <= k < |s| ==> IsWhitespace(s[k])
  }

  predicate NoWhitespace(s: string) {
    forall k :: 0 <= k < |s| ==> !IsWhitespace(s[k])
  }

  /** `s` with its leading whitespace removed. */
  function TrimStart(s: string): string {
    if s != [] && IsWhitespace(s[0]) then TrimStart(s[1..]) else s
  }

  /** `s` with its trailing whitespace removed. */
  function TrimEnd(s: string): string {
    if s != [] && IsWhitespace(s[|s| - 1]) then TrimEnd(s[..|s| - 1]) else s
  }

  /** Cutting leading whitespace leaves a suffix that starts with a
      non-whitespace character, after nothing but whitespace. */
  lemma {:induction false} TrimStartSpec(s: string)
    ensures var r := TrimStart(s);
      && |r| <= |s| && r == s[|s| - |r|..]
      && AllWhitespace(s[..|s| - |r|])
      && (r != [] ==> !IsWhitespace(r[0]))
  {
    if s != [] && IsWhitespace(s[0]) {
      var u := s[1..];
      TrimStartSpec(u);
      var r := TrimStart(u);
      var n := |u| - |r|;
      var m := n + 1;
      assert u[n..] == s[m..];
      forall k | 0 <= k < m ensures IsWhitespace(s[..m][k]) {
        if k > 0 { assert s[..m][k] == u[..n][k - 1]; }
      }
    }
  }

  /** Cutting trailing whitespace leaves a prefix that ends with a
      non-whitespace character, before nothing but whitespace. */
  lemma {:induction false} TrimEndSpec(s: string)
    ensures var r := TrimEnd(s);
      && |r| <= |s| && r == s[..|r|]
      && AllWhitespace(s[|r|..])
      && (r != [] ==> !IsWhitespace(r[|r| - 1]))
  {
    if s != [] && IsWhitespace(s[|s| - 1]) {
      var u := s[..|s| - 1];
      TrimEndSpec(u);
      var r := TrimEnd(u);
      assert u[..|r|] == s[..|r|];
      forall k | 0 <= k < |s| - |r| ensures IsWhitespace(s[|r|..][k]) {
        if k < |u| - |r| { assert s[|r|..][k] == u[|r|..][k]; }
        else { assert s[|r|..][k] == s[|s| - 1]; }
      }
    }
  }

  /** Where the trimmed part of `s` starts: the length of its leading
      whitespace. */
  function TrimOffset(s: string): (i: nat)
    ensures i <= |s|
  {
    TrimStartSpec(s);
    |s| - |TrimStart(s)|
  }

  /** `String.prototype.trim`: `s` without its leading and its trailing
      whitespace. */
  function Trim(s: string): (r: string)
    ensures |r| <= |s|
    ensures r != "" ==> !IsWhitespace(r[0]) && !IsWhitespace(r[|r| - 1])
  {
    TrimStartSpec(s);
    TrimEndSpec(TrimStart(s));
    TrimEnd(TrimStart(s))
  }

  /** What `trim` leaves is the slice of `s` at `TrimOffset(s)` with only
      whitespace on either side, and it neither starts nor ends with
      whitespace. */
  lemma TrimShape(s: string)
    ensures var r, o := Trim(s), TrimOffset(s);
      && o + |r| <= |s| && r == s[o..o + |r|]
      && AllWhitespace(s[..o]) && AllWhitespace(s[o + |r|..])
      && (r != [] ==> !IsWhitespace(r[0]) && !IsWhitespace(r[|r| - 1]))
  {
    var t := TrimStart(s);
    TrimStartSpec(s);
    var r := TrimEnd(t);
    TrimEndSpec(t);
    TrimParts(s, t, r);
  }

  /** Cutting leading whitespace off `s` (leaving `t`) and then trailing
      whitespace off `t` (leaving `r`) leaves a slice of `s` with only
      whitespace on either side. */
  lemma TrimParts(s: string, t: string, r: string)
    requires |t| <= |s| && t == s[|s| - |t|..] && AllWhitespace(s[..|s| - |t|])
    requires |r| <= |t| && r == t[..|r|] && AllWhitespace(t[|r|..])
    requires r != [] ==> t[0] == r[0]
    ensures var o := |s| - |t|;
      && o + |r| <= |s| && r == s[o..o + |r|]
      && AllWhitespace(s[o + |r|..])
  {
    var o := |s| - |t|;
    assert t[|r|..] == s[o + |r|..];
  }

  /** A string trims to the empty string exactly when it is all whitespace. */
  lemma TrimEmptyIffAllWhitespace(s: string)
    ensures Trim(s) == "" <==> AllWhitespace(s)
  {
    TrimShape(s);
    var r, i := Trim(s), TrimOffset(s);
    if r == "" {
      var t := TrimStart(s);
      TrimStartSpec(s);
      TrimEndSpec(t);
      assert t[|TrimEnd(t)|..] == t;
      assert |t| == 0;
      forall k | 0 <= k < |s| ensures IsWhitespace(s[k]) {
        assert s[k] == s[..i][k];
      }
    } else {
      assert s[i] == r[0];
    }
  }

  /** JavaScript's `length`: UTF-16 code units, two for a code point above
      U+FFFF. */
  function Utf16Length(s: string): (n: nat)
    ensures |s| <= n <= 2 * |s|
    ensures n == |s| <==> forall k :: 0 <= k < |s| ==> s[k] as int <= 0xFFFF
  {
    if s == [] then 0
    else (if s[0] as int > 0xFFFF then 2 else 1) + Utf16Length(s[1..])
  }

  /** `p` occurs in `s` starting at index `i`. */
  predicate OccursAt(s: string, p: string, i: nat) {
    i + |p| <= |s| && s[i..i + |p|] == p
  }

  /** The first index at or after `from` where `p` occurs in `s`. */
  function IndexFrom(s: string, p: string, from: nat): (r: Option<nat>)
    decreases |s| - from
    ensures r.Some? ==> from <= r.value && OccursAt(s, p, r.value)
    ensures r.Some? ==> forall j :: from <= j < r.value ==> !OccursAt(s, p, j)
    ensures r.None? ==> forall j :: from <= j ==> !OccursAt(s, p, j)
  {
    if from + |p| > |s| then None
    else if s[from..from + |p|] == p then Some(from)
    else IndexFrom(s, p, from + 1)
  }

  /** `String.prototype.includes`. */
  predicate Includes(s: string, p: string)
    ensures Includes(s, p) ==> |p| <= |s|
    ensures p == "" ==> Includes(s, p)
  {
    IndexFrom(s, p, 0).Some?
  }

  lemma IncludesIffOccurs(s: string, p: string)
    ensures Includes(s, p) <==> exists i :: OccursAt(s, p, i)
  {
    if !Includes(s, p) {
      assert forall j :: 0 <= j ==> !OccursAt(s, p, j);
    }
  }

  /** The longest prefix of `s` holding no whitespace: what a greedy `\S+`
      (or `\S*`) consumes. */
  function NonSpaceRun(s: string): (r: string)
    ensures |r| <= |s| && r == s[..|r|] && NoWhitespace(r)
    ensures |r| < |s| ==> IsWhitespace(s[|r|])
  {
    if s == [] || IsWhitespace(s[0]) then "" else [s[0]] + NonSpaceRun(s[1..])
  }

  /** A string without whitespace is consumed whole. */
  lemma {:induction false} NonSpaceRunWhole(s: string)
    requires NoWhitespace(s)
    ensures NonSpaceRun(s) == s
  {
    if s != [] {
      assert NoWhitespace(s[1..]) by {
        forall k | 0 <= k < |s| - 1 ensures !IsWhitespace(s[1..][k]) {
          assert s[1..][k] == s[k + 1];
        }
      }
      NonSpaceRunWhole(s[1..]);
    }
  }

  /** Regular-expression case folding without the `u` flag, on the letters
      the client's patterns use: non-ASCII characters never fold to ASCII. */
  function AsciiLower(c: char): char {
    if 'A' <= c <= 'Z' then (c as int + 32) as char else c
  }

  function AsciiLowerAll(s: string): (r: string)
    ensures |r| == |s| && forall k :: 0 <= k < |s| ==> r[k] == AsciiLower(s[k])
  {
    if s == [] then "" else [AsciiLower(s[0])] + AsciiLowerAll(s[1..])
  }

  /** `s` ends with the lower-case `suffix`, ignoring ASCII case: the
      anchored, case-insensitive match of a literal. */
  predicate EndsWithIgnoreCase(s: string, suffix: string) {
    |suffix| <= |s| && AsciiLowerAll(s[|s| - |suffix|..]) == suffix
  }

  /** `Array.prototype.join` on strings. */
  function Join(xs: seq<string>, sep: string): string {
    if xs == [] then ""
    else if |xs| == 1 then xs[0]
    else xs[0] + sep + Join(xs[1..], sep)
  }

  /** Where the `i`-th element starts in `Join(xs, sep)`. */
  function JoinOffset(xs: seq<string>, sep: string, i: nat): nat
    requires i <= |xs|
  {
    if i == 0 then 0 else JoinOffset(xs, sep, i - 1) + |xs[i - 1]| + |sep|
  }

  /** The joined string is as long as the elements and the separators
      between them: nothing follows the last element. */
  lemma {:induction false} JoinLength(xs: seq<string>, sep: string)
    requires xs != []
    ensures |Join(xs, sep)| == JoinOffset(xs, sep, |xs| - 1) + |xs[|xs| - 1]|
  {
    if |xs| > 1 {
      JoinLength(xs[1..], sep);
      OffsetShift(xs, sep, |xs| - 1);
    }
  }

  /** Every element appears in the joined string at its offset, in input
      order, with `sep` between neighbours. */
  lemma JoinLayout(xs: seq<string>, sep: string, i: nat)
    requires i < |xs|
    ensures JoinOffset(xs, sep, i) + |xs[i]| <= |Join(xs, sep)|
    ensures Join(xs, sep)[JoinOffset(xs, sep, i)..JoinOffset(xs, sep, i) + |xs[i]|] == xs[i]
    ensures i + 1 < |xs| ==>
      && JoinOffset(xs, sep, i + 1) <= |Join(xs, sep)|
      && Join(xs, sep)[JoinOffset(xs, sep, i) + |xs[i]|..JoinOffset(xs, sep, i + 1)] == sep
  {
    JoinElement(xs, sep, i);
    if i + 1 < |xs| {
      JoinSeparator(xs, sep, i);
    }
  }

  /** The `i`-th element sits at its offset in the joined string. */
  lemma {:induction false} JoinElement(xs: seq<string>, sep: string, i: nat)
    requires i < |xs|
    ensures JoinOffset(xs, sep, i) + |xs[i]| <= |Join(xs, sep)|
    ensures Join(xs, sep)[JoinOffset(xs, sep, i)..JoinOffset(xs, sep, i) + |xs[i]|] == xs[i]
  {
    if i == 0 {
      if |xs| > 1 {
        assert Join(xs, sep) == xs[0] + (sep + Join(xs[1..], sep));
      }
    } else {
      var tail := xs[1..];
      var head := xs[0] + sep;
      assert Join(xs, sep) == head + Join(tail, sep);
      OffsetShift(xs, sep, i);
      JoinElement(tail, sep, i - 1);
      assert tail[i - 1] == xs[i];
      var o := JoinOffset(tail, sep, i - 1);
      SliceOfAppend(head, Join(tail, sep), o, o + |xs[i]|);
    }
  }

  /** The separator follows the `i`-th element when another element comes
      after it. */
  lemma {:induction false} JoinSeparator(xs: seq<string>, sep: string, i: nat)
    requires i + 1 < |xs|
    ensures JoinOffset(xs, sep, i + 1) <= |Join(xs, sep)|
    ensures Join(xs, sep)[JoinOffset(xs, sep, i) + |xs[i]|..JoinOffset(xs, sep, i + 1)] == sep
  {
    var tail := xs[1..];
    var head := xs[0] + sep;
    assert Join(xs, sep) == head + Join(tail, sep);
    if i == 0 {
      assert JoinOffset(xs, sep, 1) == |xs[0]| + |sep|;
      SliceOfPrefix(head, Join(tail, sep), |xs[0]|, |head|);
      SliceOfAppend(xs[0], sep, 0, |sep|);
    } else {
      OffsetShift(xs, sep, i);
      OffsetShift(xs, sep, i + 1);
      JoinSeparator(tail, sep, i - 1);
      assert tail[i - 1] == xs[i];
      SliceOfAppend(head, Join(tail, sep), JoinOffset(tail, sep, i - 1) + |xs[i]|, JoinOffset(tail, sep, i));
    }
  }

  lemma SliceOfPrefix(p: string, q: string, a: nat, b: nat)
    requires a <= b <= |p|
    ensures (p + q)[a..b] == p[a..b]
  {
  }

  lemma SliceOfAppend(p: string, q: string, a: nat, b: nat)
    requires a <= b <= |q|
    ensures (p + q)[|p| + a..|p| + b] == q[a..b]
  {
  }

  /** Offsets in `xs` are those in `xs[1..]` shifted by the first element
      and one separator. */
  lemma {:induction false} OffsetShift(xs: seq<string>, sep: string, i: nat)
    requires 1 <= i <= |xs|
    ensures JoinOffset(xs, sep, i) == |xs[0]| + |sep| + JoinOffset(xs[1..], sep, i - 1)
  {
    if i > 1 { OffsetShift(xs, sep, i - 1); }
  }
}
