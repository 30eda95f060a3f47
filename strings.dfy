/** Character-level string operations with the meaning of the Python built-ins
    the statement tools rely on: `str.isspace`, `str.strip`, `str.find`, the
    substring test `t in s`, `str.replace` with a one-character pattern, a
    regex substitution over a character class, `" ".join(...)`, and
    `re.sub(r"\s+", " ", s)`. */
module Strings {

  /** Whitespace as `str.isspace` and the regex class `\s` (on `str`) see it. */
  predicate IsSpace(c: char) {
    var n := c as int;
    n == 0x20 || 0x09 <= n <= 0x0D || 0x1C <= n <= 0x1F || n == 0x85 || n == 0xA0
    || n == 0x1680 || 0x2000 <= n <= 0x200A || n == 0x2028 || n == 0x2029
    || n == 0x202F || n == 0x205F || n == 0x3000
  }

  /** The regex class `\d`, restricted to ASCII digits. */
  predicate IsDigit(c: char) {
    '0' <= c <= '9'
  }

  // ---------------------------------------------------------------------------
  // Substring search
  // ---------------------------------------------------------------------------

  /** `t` occurs in `s` starting at position `j`. */
  predicate OccursAt(s: string, t: string, j: nat) {
    j + |t| <= |s| && s[j..j + |t|] == t
  }

  /** `s.find(t, i)`: the first position at or after `i` where `t` occurs, or -1. */
  function IndexOfFrom(s: string, t: string, i: nat): (r: int)
    requires i <= |s|
    ensures r == -1 || (i <= r && OccursAt(s, t, r))
    ensures r == -1 ==> forall j: nat :: i <= j ==> !OccursAt(s, t, j)
    ensures r != -1 ==> forall j: nat :: i <= j < r ==> !OccursAt(s, t, j)
    decreases |s| - i
  {
    if i + |t| > |s| then -1
    else if s[i..i + |t|] == t then i
    else IndexOfFrom(s, t, i + 1)
  }

  /** `s.find(t)`. */
  function IndexOf(s: string, t: string): (r: int)
    ensures r == -1 <==> forall j: nat :: !OccursAt(s, t, j)
    ensures r != -1 ==> 0 <= r && OccursAt(s, t, r) && forall j: nat :: j < r ==> !OccursAt(s, t, j)
  {
    IndexOfFrom(s, t, 0)
  }

  /** Python's substring test `t in s`. */
  predicate Contains(s: string, t: string) {
    IndexOf(s, t) != -1
  }

  /** An occurrence in `a` is an occurrence in `a + b`, at the same position. */
  lemma OccursInLeft(a: string, b: string, t: string, j: nat)
    requires OccursAt(a, t, j)
    ensures OccursAt(a + b, t, j)
  {
    assert (a + b)[j..j + |t|] == a[j..j + |t|];
  }

  /** An occurrence in `b` is an occurrence in `a + b`, shifted by `|a|`. */
  lemma OccursInRight(a: string, b: string, t: string, j: nat)
    requires OccursAt(b, t, j)
    ensures OccursAt(a + b, t, |a| + j)
  {
    assert (a + b)[|a| + j..|a| + j + |t|] == b[j..j + |t|];
  }

  /** An occurrence in `a + " " + b` lies in `a`, lies in `b`, or covers the
      separating space. */
  lemma OccursAroundSpace(a: string, b: string, t: string, j: nat)
    requires OccursAt(a + " " + b, t, j)
    ensures OccursAt(a, t, j) || (j > |a| && OccursAt(b, t, j - |a| - 1)) || ' ' in t
  {
    var s := a + " " + b;
    if j + |t| <= |a| {
      assert s[j..j + |t|] == a[j..j + |t|];
    } else if j > |a| {
      assert s[j..j + |t|] == b[j - |a| - 1..j - |a| - 1 + |t|];
    } else {
      assert t[|a| - j] == s[j..j + |t|][|a| - j] == s[|a|];
    }
  }

  /** A needle without spaces occurs in `a + " " + b` exactly when it occurs in
      `a` or in `b`. */
  lemma ContainsAroundSpace(a: string, b: string, t: string)
    requires ' ' !in t
    ensures Contains(a + " " + b, t) <==> Contains(a, t) || Contains(b, t)
  {
    var s := a + " " + b;
    if Contains(s, t) {
      OccursAroundSpace(a, b, t, IndexOf(s, t));
    }
    if Contains(a, t) {
      OccursInLeft(a, " " + b, t, IndexOf(a, t));
      assert a + (" " + b) == s;
    }
    if Contains(b, t) {
      OccursInRight(a + " ", b, t, IndexOf(b, t));
    }
  }

  // ---------------------------------------------------------------------------
  // Character maps and filters
  // ---------------------------------------------------------------------------

  /** Applies a length-preserving character map, the way this model treats
      `str.lower` and `str.upper`. */
  function MapChars(f: char -> char, s: string): (r: string)
    ensures |r| == |s| && forall i :: 0 <= i < |s| ==> r[i] == f(s[i])
  {
    seq(|s|, i requires 0 <= i < |s| => f(s[i]))
  }

  /** A character map carries every occurrence of `t` in `s` to an occurrence
      of the mapped `t` in the mapped `s`, at the same position. */
  lemma MapCharsKeepsOccurrence(f: char -> char, s: string, t: string, j: nat)
    requires OccursAt(s, t, j)
    ensures OccursAt(MapChars(f, s), MapChars(f, t), j)
  {
    var ms, mt := MapChars(f, s), MapChars(f, t);
    assert ms[j..j + |t|] == mt by {
      forall k | 0 <= k < |t| ensures ms[j..j + |t|][k] == mt[k] {
        assert s[j..j + |t|][k] == t[k];
      }
    }
  }

  /** `s.replace(c, repl)` for a one-character pattern `c`. */
  function Replace(s: string, c: char, repl: string): (r: string)
    ensures c !in repl ==> c !in r
    ensures forall x :: x in r ==> x in s || x in repl
  {
    if s == [] then []
    else (if s[0] == c then repl else [s[0]]) + Replace(s[1..], c, repl)
  }

  lemma {:induction false} ReplaceAppend(a: string, b: string, c: char, repl: string)
    ensures Replace(a + b, c, repl) == Replace(a, c, repl) + Replace(b, c, repl)
  {
    if a == [] {
      assert a + b == b;
    } else {
      var h := if a[0] == c then repl else [a[0]];
      assert (a + b)[0] == a[0] && (a + b)[1..] == a[1..] + b;
      ReplaceAppend(a[1..], b, c, repl);
      calc {
        Replace(a + b, c, repl);
        h + Replace(a[1..] + b, c, repl);
        h + (Replace(a[1..], c, repl) + Replace(b, c, repl));
        (h + Replace(a[1..], c, repl)) + Replace(b, c, repl);
      }
    }
  }

  lemma {:induction false} ReplaceAbsent(s: string, c: char, repl: string)
    requires c !in s
    ensures Replace(s, c, repl) == s
  {
    if s != [] {
      assert s[0] != c;
      ReplaceAbsent(s[1..], c, repl);
      assert [s[0]] + s[1..] == s;
    }
  }

  /** `s.replace(c, "")`. */
  function Remove(s: string, c: char): (r: string)
    ensures c !in r
  {
    Replace(s, c, "")
  }

  /** `re.sub("[^...]", "", s)`: keeps the characters `keep` accepts, in order. */
  function Keep(s: string, keep: char -> bool): (r: string)
    ensures |r| <= |s|
    ensures forall x :: x in r ==> x in s && keep(x)
  {
    if s == [] then []
    else (if keep(s[0]) then [s[0]] else []) + Keep(s[1..], keep)
  }

  lemma {:induction false} KeepAll(s: string, keep: char -> bool)
    requires forall i :: 0 <= i < |s| ==> keep(s[i])
    ensures Keep(s, keep) == s
  {
    if s != [] {
      KeepAll(s[1..], keep);
      assert [s[0]] + s[1..] == s;
    }
  }

  lemma {:induction false} KeepNone(s: string, keep: char -> bool)
    requires forall x :: x in s ==> !keep(x)
    ensures Keep(s, keep) == []
  {
    if s != [] {
      KeepNone(s[1..], keep);
    }
  }

  lemma {:induction false} KeepAppend(a: string, b: string, keep: char -> bool)
    ensures Keep(a + b, keep) == Keep(a, keep) + Keep(b, keep)
  {
    if a == [] {
      assert a + b == b;
    } else {
      var h := if keep(a[0]) then [a[0]] else [];
      assert (a + b)[0] == a[0] && (a + b)[1..] == a[1..] + b;
      KeepAppend(a[1..], b, keep);
      calc {
        Keep(a + b, keep);
        h + Keep(a[1..] + b, keep);
        h + (Keep(a[1..], keep) + Keep(b, keep));
        (h + Keep(a[1..], keep)) + Keep(b, keep);
      }
    }
  }

  // ---------------------------------------------------------------------------
  // Whitespace: strip and collapse
  // ---------------------------------------------------------------------------

  /** `s.lstrip()`. */
  function TrimLeft(s: string): (r: string)
    ensures |r| <= |s| && r == s[|s| - |r|..]
    ensures r == [] || !IsSpace(r[0])
    ensures forall i :: 0 <= i < |s| - |r| ==> IsSpace(s[i])
  {
    if s != [] && IsSpace(s[0]) then TrimLeft(s[1..]) else s
  }

  /** `s.rstrip()`. */
  function TrimRight(s: string): (r: string)
    ensures |r| <= |s| && r == s[..|r|]
    ensures r == [] || !IsSpace(r[|r| - 1])
    ensures forall i :: |r| <= i < |s| ==> IsSpace(s[i])
  {
    if s != [] && IsSpace(s[|s| - 1]) then TrimRight(s[..|s| - 1]) else s
  }

  /** `s.strip()`. */
  function Strip(s: string): string {
    TrimRight(TrimLeft(s))
  }

  /** `Strip` keeps exactly the middle of `s` between a whitespace-only head and
      a whitespace-only tail, and that middle neither starts nor ends with
      whitespace. */
  lemma StripSpec(s: string)
    ensures var r := Strip(s);
      && (r == [] || (!IsSpace(r[0]) && !IsSpace(r[|r| - 1])))
      && exists lo, hi ::
           && 0 <= lo <= hi <= |s| && r == s[lo..hi]
           && (forall i :: 0 <= i < lo ==> IsSpace(s[i]))
           && (forall i :: hi <= i < |s| ==> IsSpace(s[i]))
  {
    var l := TrimLeft(s);
    var r := TrimRight(l);
    var lo := |s| - |l|;
    var hi := lo + |r|;
    assert r == s[lo..hi] by {
      assert l == s[lo..];
      assert r == l[..|r|];
    }
    assert forall i :: hi <= i < |s| ==> IsSpace(s[i]) by {
      forall i | hi <= i < |s| ensures IsSpace(s[i]) {
        assert s[i] == l[i - lo];
      }
    }
    assert r == [] || (!IsSpace(r[0]) && !IsSpace(r[|r| - 1])) by {
      if r != [] { assert r[0] == l[0]; }
    }
  }

  /** No whitespace other than single ASCII spaces: every whitespace character
      is `' '` and is not followed by another whitespace character. */
  predicate SingleSpaced(s: string) {
    forall i :: 0 <= i < |s| && IsSpace(s[i]) ==> s[i] == ' ' && (i + 1 < |s| ==> !IsSpace(s[i + 1]))
  }

  /** The normal form `clean_description` produces: single-spaced, and no
      whitespace at either end. */
  predicate IsNormal(s: string) {
    SingleSpaced(s) && (s == [] || (!IsSpace(s[0]) && !IsSpace(s[|s| - 1])))
  }

  /** `re.sub(r"\s+", " ", s)`: each maximal run of whitespace becomes one space. */
  function CollapseSpaces(s: string): (r: string)
    ensures SingleSpaced(r)
    ensures |r| <= |s|
    ensures r == [] <==> s == []
    ensures s != [] ==> (IsSpace(r[0]) <==> IsSpace(s[0]))
    decreases |s|
  {
    if s == [] then []
    else if IsSpace(s[0]) then " " + CollapseSpaces(TrimLeft(s[1..]))
    else [s[0]] + CollapseSpaces(s[1..])
  }

  /** The last step of `clean_description`: `re.sub(r"\s+", " ", s).strip()`. */
  function Squash(s: string): string {
    Strip(CollapseSpaces(s))
  }

  /** The characters of `s` that are not whitespace, in order. */
  function NonSpace(s: string): string {
    if s == [] then [] else (if IsSpace(s[0]) then [] else [s[0]]) + NonSpace(s[1..])
  }

  lemma NonSpaceAppend(a: string, b: string)
    ensures NonSpace(a + b) == NonSpace(a) + NonSpace(b)
  {
    if a != [] {
      assert (a + b)[0] == a[0];
      assert (a + b)[1..] == a[1..] + b;
      NonSpaceAppend(a[1..], b);
      var h := if IsSpace(a[0]) then [] else [a[0]];
      assert h + (NonSpace(a[1..]) + NonSpace(b)) == (h + NonSpace(a[1..])) + NonSpace(b);
    } else {
      assert a + b == b;
    }
  }

  lemma {:induction false} NonSpaceOfSpaces(s: string)
    requires forall i :: 0 <= i < |s| ==> IsSpace(s[i])
    ensures NonSpace(s) == []
  {
    if s != [] {
      NonSpaceOfSpaces(s[1..]);
    }
  }

  lemma NonSpaceTrimLeft(s: string)
    ensures NonSpace(TrimLeft(s)) == NonSpace(s)
  {
    var l := TrimLeft(s);
    var head := s[..|s| - |l|];
    assert s == head + l;
    NonSpaceAppend(head, l);
    NonSpaceOfSpaces(head);
  }

  lemma NonSpaceTrimRight(s: string)
    ensures NonSpace(TrimRight(s)) == NonSpace(s)
  {
    var r := TrimRight(s);
    var tail := s[|r|..];
    assert s == r + tail;
    NonSpaceAppend(r, tail);
    NonSpaceOfSpaces(tail);
  }

  lemma {:induction false} CollapseKeepsContent(s: string)
    ensures NonSpace(CollapseSpaces(s)) == NonSpace(s)
    decreases |s|
  {
    if s != [] {
      var t := s[1..];
      if IsSpace(s[0]) {
        var l := TrimLeft(t);
        CollapseKeepsContent(l);
        NonSpaceAppend(" ", CollapseSpaces(l));
        NonSpaceTrimLeft(t);
      } else {
        CollapseKeepsContent(t);
        NonSpaceAppend([s[0]], CollapseSpaces(t));
      }
    }
  }

  /** The whitespace step keeps every non-whitespace character, in order. */
  lemma SquashKeepsContent(s: string)
    ensures NonSpace(Squash(s)) == NonSpace(s)
  {
    var c := CollapseSpaces(s);
    CollapseKeepsContent(s);
    NonSpaceTrimLeft(c);
    NonSpaceTrimRight(TrimLeft(c));
  }

  /** A slice of a single-spaced string is single-spaced. */
  lemma SingleSpacedSlice(s: string, lo: int, hi: int)
    requires SingleSpaced(s) && 0 <= lo <= hi <= |s|
    ensures SingleSpaced(s[lo..hi])
  {
    var t := s[lo..hi];
    forall i | 0 <= i < |t| && IsSpace(t[i])
      ensures t[i] == ' ' && (i + 1 < |t| ==> !IsSpace(t[i + 1]))
    {
      assert t[i] == s[lo + i];
      if i + 1 < |t| {
        assert t[i + 1] == s[lo + i + 1];
      }
    }
  }

  /** The output of the whitespace step is in normal form. */
  lemma SquashIsNormal(s: string)
    ensures IsNormal(Squash(s))
  {
    var c := CollapseSpaces(s);
    StripSpec(c);
    var r := Strip(c);
    var lo, hi :| 0 <= lo <= hi <= |c| && r == c[lo..hi];
    SingleSpacedSlice(c, lo, hi);
  }

  lemma {:induction false} CollapseOfSingleSpaced(s: string)
    requires SingleSpaced(s)
    ensures CollapseSpaces(s) == s
    decreases |s|
  {
    if s != [] {
      SingleSpacedSlice(s, 1, |s|);
      CollapseOfSingleSpaced(s[1..]);
      if IsSpace(s[0]) {
        assert TrimLeft(s[1..]) == s[1..];
      }
    }
  }

  /** The whitespace step leaves a string in normal form unchanged. */
  lemma SquashOfNormal(s: string)
    requires IsNormal(s)
    ensures Squash(s) == s
  {
    CollapseOfSingleSpaced(s);
  }

  /** The whitespace step is idempotent. */
  lemma SquashIdempotent(s: string)
    ensures Squash(Squash(s)) == Squash(s)
  {
    SquashIsNormal(s);
    SquashOfNormal(Squash(s));
  }

  // ---------------------------------------------------------------------------
  // Joining
  // ---------------------------------------------------------------------------

  /** `sep.join(xs)`. */
  function Join(sep: string, xs: seq<string>): string {
    if xs == [] then []
    else if |xs| == 1 then xs[0]
    else xs[0] + sep + Join(sep, xs[1..])
  }

  /** A needle without spaces occurs in `" ".join(xs)` exactly when it occurs in
      one of the joined strings. */
  lemma {:induction false} JoinContains(xs: seq<string>, t: string)
    requires ' ' !in t && t != []
    ensures Contains(Join(" ", xs), t) <==> exists i :: 0 <= i < |xs| && Contains(xs[i], t)
  {
    if xs == [] {
      assert !OccursAt([], t, 0);
    } else if |xs| == 1 {
    } else {
      JoinContains(xs[1..], t);
      ContainsAroundSpace(xs[0], Join(" ", xs[1..]), t);
      assert xs[0] + " " + Join(" ", xs[1..]) == Join(" ", xs);
      if Contains(Join(" ", xs[1..]), t) {
        var i :| 0 <= i < |xs[1..]| && Contains(xs[1..][i], t);
        assert Contains(xs[i + 1], t);
      }
      if exists i :: 0 <= i < |xs| && Contains(xs[i], t) {
        var i :| 0 <= i < |xs| && Contains(xs[i], t);
        if i > 0 {
          assert Contains(xs[1..][i - 1], t);
        }
      }
    }
  }
}
