/** The parts of Python's `str` that the core relies on: `isspace`, `split()`, `" ".join`,
    `strip`, `replace`, `lower`/`upper` and slicing into fixed-size pieces. */
module Text {

  /** `c.isspace()`; `\s` in a `str` pattern matches exactly the same characters. */
  predicate IsSpace(c: char) {
    ('\t' <= c <= '\r') || ('\U{1c}' <= c <= ' ') || c == '\U{85}' || c == '\U{a0}'
    || c == '\U{1680}' || ('\U{2000}' <= c <= '\U{200a}') || c == '\U{2028}' || c == '\U{2029}'
    || c == '\U{202f}' || c == '\U{205f}' || c == '\U{3000}'
  }

  predicate NoSpace(s: string) {
    forall i :: 0 <= i < |s| ==> !IsSpace(s[i])
  }

  /** `not s.strip()`: the string is empty or holds only whitespace. */
  predicate IsBlank(s: string) {
    forall i :: 0 <= i < |s| ==> IsSpace(s[i])
  }

  /** The non-whitespace characters of `s`, in order. */
  function NonSpace(s: string): (r: string)
    ensures |r| <= |s|
  {
    if s == [] then [] else (if IsSpace(s[0]) then [] else [s[0]]) + NonSpace(s[1..])
  }

  lemma {:induction false} NonSpaceHasNoSpace(s: string)
    ensures NoSpace(NonSpace(s))
  {
    if s != [] {
      NonSpaceHasNoSpace(s[1..]);
    }
  }

  lemma {:induction false} NonSpaceAppend(a: string, b: string)
    ensures NonSpace(a + b) == NonSpace(a) + NonSpace(b)
  {
    if a == [] {
      EmptyAppend(b);
    } else {
      TailOfAppend(a, b);
      NonSpaceAppend(a[1..], b);
    }
  }

  /** One character in front adds it when it is not whitespace. */
  lemma NonSpaceCons(c: char, x: string)
    ensures NonSpace([c] + x) == (if IsSpace(c) then [] else [c]) + NonSpace(x)
  {
    ConsTail(c, x);
  }

  lemma EmptyAppend(x: string)
    ensures [] + x == x
  {
  }

  lemma ConsTail(c: char, x: string)
    ensures ([c] + x)[0] == c && ([c] + x)[1..] == x
  {
  }

  lemma TailOfAppend(a: string, b: string)
    requires a != []
    ensures (a + b)[0] == a[0] && (a + b)[1..] == a[1..] + b
  {
  }

  lemma TwoSlices(s: string, k: nat)
    requires k <= |s|
    ensures s == s[..k] + s[k..]
  {
  }

  lemma AppendEmpty(x: string)
    ensures x + "" == x
  {
  }

  /** Joining with one space adds no non-whitespace character. */
  lemma NonSpaceJoinSpace(a: string, b: string)
    ensures NonSpace(a + " " + b) == NonSpace(a) + NonSpace(b)
  {
    JoinSpaceRegroup(a, b);
    NonSpaceAppend(a, [' '] + b);
    NonSpaceCons(' ', b);
  }

  lemma JoinSpaceRegroup(a: string, b: string)
    ensures a + " " + b == a + ([' '] + b)
  {
  }

  lemma {:induction false} NonSpaceOfBlank(s: string)
    requires IsBlank(s)
    ensures NonSpace(s) == []
  {
    if s != [] {
      NonSpaceOfBlank(s[1..]);
    }
  }

  /** `"".join(ss)`. */
  function Flatten(ss: seq<string>): string {
    if ss == [] then "" else ss[0] + Flatten(ss[1..])
  }

  lemma {:induction false} FlattenAppend(a: seq<string>, b: seq<string>)
    ensures Flatten(a + b) == Flatten(a) + Flatten(b)
  {
    if a == [] {
      assert a + b == b;
    } else {
      assert (a + b)[1..] == a[1..] + b;
      FlattenAppend(a[1..], b);
    }
  }
  /** Flattening peels off the last string. */
  lemma FlattenSnoc(ss: seq<string>)
    requires ss != []
    ensures Flatten(ss) == Flatten(ss[..|ss| - 1]) + ss[|ss| - 1]
  {
    SplitLast(ss);
    FlattenAppend(ss[..|ss| - 1], [ss[|ss| - 1]]);
    FlattenSingle(ss[|ss| - 1]);
  }

  /** One more element of a prefix. */
  lemma TakeSnoc<T>(xs: seq<T>, i: nat)
    requires i < |xs|
    ensures xs[..i + 1] == xs[..i] + [xs[i]]
  {
  }

  lemma TakeIsPrefix<T>(xs: seq<T>, k: nat)
    requires k <= |xs|
    ensures xs[..k] <= xs
  {
  }

  lemma TakeAll<T>(xs: seq<T>)
    ensures xs[..|xs|] == xs
  {
  }

  lemma SplitLast<T>(xs: seq<T>)
    requires xs != []
    ensures xs == xs[..|xs| - 1] + [xs[|xs| - 1]]
  {
  }

  lemma FlattenSingle(c: string)
    ensures Flatten([c]) == c
  {
    assert Flatten([c]) == c + Flatten([]);
  }


  /** `sep.join(ws)`. */
  function Join(ws: seq<string>, sep: string): string {
    if ws == [] then "" else if |ws| == 1 then ws[0] else ws[0] + sep + Join(ws[1..], sep)
  }

  // ---------------------------------------------------------------- str.split()

  /** The longest prefix of `s` without whitespace. */
  function LeadingWord(s: string): (w: string)
    ensures w <= s && NoSpace(w)
    ensures |w| < |s| ==> IsSpace(s[|w|])
  {
    if s == [] || IsSpace(s[0]) then [] else [s[0]] + LeadingWord(s[1..])
  }

  /** `s.split()`: the maximal runs of non-whitespace characters, in order. */
  function Split(s: string): (ws: seq<string>)
    decreases |s|
  {
    if s == [] then []
    else if IsSpace(s[0]) then Split(s[1..])
    else var w := LeadingWord(s); [w] + Split(s[|w|..])
  }

  /** Every word `split()` returns is non-empty and holds no whitespace. */
  lemma {:induction false} SplitWords(s: string)
    ensures forall i :: 0 <= i < |Split(s)| ==> Split(s)[i] != [] && NoSpace(Split(s)[i])
    decreases |s|
  {
    if s == [] {
    } else if IsSpace(s[0]) {
      SplitWords(s[1..]);
    } else {
      SplitWords(s[|LeadingWord(s)|..]);
    }
  }

  lemma {:induction false} LeadingWordOf(w: string, rest: string)
    requires NoSpace(w)
    requires rest == [] || IsSpace(rest[0])
    ensures LeadingWord(w + rest) == w
  {
    if w == [] {
      EmptyAppend(rest);
    } else {
      TailOfAppend(w, rest);
      LeadingWordOf(w[1..], rest);
    }
  }

  /** `" ".join` followed by `split()` gives the words back, when they are non-empty and hold
      no whitespace. */
  lemma {:induction false} SplitJoin(ws: seq<string>)
    requires forall i :: 0 <= i < |ws| ==> ws[i] != [] && NoSpace(ws[i])
    ensures Split(Join(ws, " ")) == ws
  {
    if |ws| == 1 {
      var w := ws[0];
      LeadingWordOf(w, []);
      AppendEmpty(w);
      assert Split(w[|w|..]) == [];
    } else if ws != [] {
      SplitJoin(ws[1..]);
      SplitWordThenSpace(ws[0], Join(ws[1..], " "));
      assert ws == [ws[0]] + ws[1..];
    }
  }

  /** A word followed by one space splits off as the first word. */
  lemma SplitWordThenSpace(w: string, rest: string)
    requires w != [] && NoSpace(w)
    ensures Split(w + " " + rest) == [w] + Split(rest)
  {
    var tail := [' '] + rest;
    JoinSpaceRegroup(w, rest);
    LeadingWordOf(w, tail);
    TailOfAppend(w, tail);
    DropPrefix(w, tail);
    ConsTail(' ', rest);
  }

  lemma DropPrefix(w: string, x: string)
    ensures (w + x)[|w|..] == x
  {
  }

  // ---------------------------------------------------------------- str.strip()

  /** The number of leading whitespace characters of `s`. */
  function LeadingSpaces(s: string): (k: nat)
    ensures k <= |s| && (forall i :: 0 <= i < k ==> IsSpace(s[i]))
    ensures k < |s| ==> !IsSpace(s[k])
  {
    if s != [] && IsSpace(s[0]) then 1 + LeadingSpaces(s[1..]) else 0
  }

  /** The length of `s` without its trailing whitespace. */
  function TrailingStart(s: string): (k: nat)
    ensures k <= |s| && (forall i :: k <= i < |s| ==> IsSpace(s[i]))
    ensures 0 < k ==> !IsSpace(s[k - 1])
  {
    if s != [] && IsSpace(s[|s| - 1]) then TrailingStart(s[..|s| - 1]) else |s|
  }

  /** `s.lstrip()`. */
  function TrimStart(s: string): string {
    s[LeadingSpaces(s)..]
  }

  /** `s.strip()`: `s` without leading and trailing whitespace. */
  function Strip(s: string): (r: string)
    ensures |r| <= |s|
    ensures r == [] || (!IsSpace(r[0]) && !IsSpace(r[|r| - 1]))
    ensures exists a, b :: 0 <= a <= b <= |s| && r == s[a..b] && IsBlank(s[..a]) && IsBlank(s[b..])
  {
    var t := TrimStart(s);
    var a := LeadingSpaces(s);
    var b := a + TrailingStart(t);
    assert t[..TrailingStart(t)] == s[a..b];
    assert IsBlank(s[b..]) by {
      forall i | 0 <= i < |s| - b ensures IsSpace(s[b..][i]) {
        assert s[b..][i] == t[TrailingStart(t) + i];
      }
    }
    t[..TrailingStart(t)]
  }

  /** `strip()` removes whitespace only: the non-whitespace characters stay, in order. */
  lemma StripKeepsContent(s: string)
    ensures NonSpace(Strip(s)) == NonSpace(s)
  {
    var a, b :| 0 <= a <= b <= |s| && Strip(s) == s[a..b] && IsBlank(s[..a]) && IsBlank(s[b..]);
    ThreeSlices(s, a, b);
    NonSpaceAppend(s[..a] + s[a..b], s[b..]);
    NonSpaceAppend(s[..a], s[a..b]);
    NonSpaceOfBlank(s[..a]);
    NonSpaceOfBlank(s[b..]);
  }

  lemma ThreeSlices(s: string, a: nat, b: nat)
    requires a <= b <= |s|
    ensures s == s[..a] + s[a..b] + s[b..]
  {
  }

  /** `not s.strip()` is the same test as `IsBlank(s)`. */
  lemma StripEmptyIffBlank(s: string)
    ensures Strip(s) == [] <==> IsBlank(s)
  {
  }

  // ---------------------------------------------------------------- re.sub(r'\s+', ' ', s)

  /** The end of the whitespace run that starts at `p` (`\s+` is greedy). */
  function RunEnd(s: string, p: nat): (e: nat)
    requires p <= |s|
    ensures p <= e <= |s|
    ensures forall i :: p <= i < e ==> IsSpace(s[i])
    ensures e < |s| ==> !IsSpace(s[e])
    decreases |s| - p
  {
    if p < |s| && IsSpace(s[p]) then RunEnd(s, p + 1) else p
  }


  /** `re.sub(r'\s+', ' ', s)`: every maximal whitespace run becomes one space. */
  function CollapseSpaces(s: string): (r: string)
    ensures |r| <= |s|
    decreases |s|
  {
    if s == [] then []
    else if IsSpace(s[0]) then [' '] + CollapseSpaces(s[LeadingSpaces(s)..])
    else [s[0]] + CollapseSpaces(s[1..])
  }

  /** The only whitespace is ' ', and never two in a row. */
  predicate SingleSpaced(s: string) {
    forall i :: 0 <= i < |s| && IsSpace(s[i]) ==> s[i] == ' ' && (i + 1 < |s| ==> !IsSpace(s[i + 1]))
  }

  /** After collapsing, the text is single-spaced, starts with whitespace exactly when the
      input does, and keeps the non-whitespace characters. */
  lemma CollapseSpacesProperties(s: string)
    ensures SingleSpaced(CollapseSpaces(s))
    ensures CollapseSpaces(s) != [] <==> s != []
    ensures s != [] ==> (IsSpace(CollapseSpaces(s)[0]) <==> IsSpace(s[0]))
    ensures NonSpace(CollapseSpaces(s)) == NonSpace(s)
  {
    CollapseSpacesShape(s);
    CollapseSpacesContent(s);
  }

  lemma {:induction false} CollapseSpacesShape(s: string)
    ensures SingleSpaced(CollapseSpaces(s))
    ensures CollapseSpaces(s) != [] <==> s != []
    ensures s != [] ==> (IsSpace(CollapseSpaces(s)[0]) <==> IsSpace(s[0]))
    decreases |s|
  {
    if s != [] {
      var r := CollapseSpaces(s);
      if IsSpace(s[0]) {
        var rest := s[LeadingSpaces(s)..];
        CollapseSpacesShape(rest);
        assert rest != [] ==> !IsSpace(rest[0]);
        assert r == [' '] + CollapseSpaces(rest);
      } else {
        CollapseSpacesShape(s[1..]);
        assert r == [s[0]] + CollapseSpaces(s[1..]);
      }
    }
  }

  lemma {:induction false} CollapseSpacesContent(s: string)
    ensures NonSpace(CollapseSpaces(s)) == NonSpace(s)
    decreases |s|
  {
    if s != [] {
      if IsSpace(s[0]) {
        var k := LeadingSpaces(s);
        CollapseSpacesContent(s[k..]);
        NonSpaceCons(' ', CollapseSpaces(s[k..]));
        LeadingRunHasNoContent(s);
        TwoSlices(s, k);
        NonSpaceAppend(s[..k], s[k..]);
      } else {
        CollapseSpacesContent(s[1..]);
        NonSpaceCons(s[0], CollapseSpaces(s[1..]));
        ConsTail(s[0], s[1..]);
        TwoSlices(s, 1);
        NonSpaceCons(s[0], s[1..]);
        assert [s[0]] + s[1..] == s[..1] + s[1..];
      }
    }
  }

  /** Collapsing writes no character of its own but ' ': every other character it outputs
      is a non-whitespace character of the input. */
  lemma {:induction false} CollapseSpacesChars(s: string)
    ensures forall c :: c in CollapseSpaces(s) ==> c == ' ' || (c in s && !IsSpace(c))
    decreases |s|
  {
    if s != [] {
      var k := if IsSpace(s[0]) then LeadingSpaces(s) else 1;
      CollapseSpacesChars(s[k..]);
      forall c | c in s[k..] ensures c in s {
        var j :| 0 <= j < |s[k..]| && s[k..][j] == c;
        assert s[k + j] == c;
      }
    }
  }

  lemma LeadingRunHasNoContent(s: string)
    ensures NonSpace(s[..LeadingSpaces(s)]) == []
  {
    var g := s[..LeadingSpaces(s)];
    assert IsBlank(g);
    NonSpaceOfBlank(g);
  }

  // ---------------------------------------------------------------- case mapping

  function LowerChar(c: char): char {
    if 'A' <= c <= 'Z' then (c as int + 32) as char else c
  }

  function UpperChar(c: char): char {
    if 'a' <= c <= 'z' then (c as int - 32) as char else c
  }

  /** `s.lower()` on ASCII letters. */
  function Lower(s: string): (r: string)
    ensures |r| == |s| && forall i :: 0 <= i < |s| ==> r[i] == LowerChar(s[i])
  {
    seq(|s|, i requires 0 <= i < |s| => LowerChar(s[i]))
  }

  /** `s.lower()` never yields an upper-case ASCII letter. */
  lemma LowerHasNoCapitals(s: string, i: int)
    requires 0 <= i < |Lower(s)|
    ensures !('A' <= Lower(s)[i] <= 'Z')
  {
  }

  // ---------------------------------------------------------------- str.replace

  /** `s.replace(pat, rep)`: a left-to-right scan replacing non-overlapping occurrences. */
  function ReplaceAll(s: string, pat: string, rep: string): string
    requires pat != []
    decreases |s|
  {
    if |s| < |pat| then s
    else if s[..|pat|] == pat then rep + ReplaceAll(s[|pat|..], pat, rep)
    else [s[0]] + ReplaceAll(s[1..], pat, rep)
  }

  /** Replacing leaves a prefix alone when no occurrence of the pattern can start in it. */
  lemma {:induction false} ReplaceAllSkipsPrefix(a: string, b: string, pat: string, rep: string)
    requires pat != []
    requires forall i :: 0 <= i < |a| ==> a[i] != pat[0]
    ensures ReplaceAll(a + b, pat, rep) == a + ReplaceAll(b, pat, rep)
  {
    if a != [] {
      var s := a + b;
      assert s[0] == a[0] != pat[0];
      if |s| >= |pat| {
        assert s[..|pat|][0] == a[0];
      } else {
        assert |b| < |pat|;
      }
      assert s[1..] == a[1..] + b;
      ReplaceAllSkipsPrefix(a[1..], b, pat, rep);
      if |b| < |pat| {
        assert ReplaceAll(b, pat, rep) == b;
        if |s| < |pat| {
          assert ReplaceAll(s, pat, rep) == s;
        }
      }
    } else {
      assert a + b == b;
    }
  }

  /** `s[:n]` under Python's slicing rules: a negative `n` counts from the end, and an index
      past either end is clamped. */
  function SlicePrefix(s: string, n: int): (r: string)
    ensures r <= s
    ensures 0 <= n <= |s| ==> |r| == n
  {
    if n >= 0 then (if n <= |s| then s[..n] else s)
    else if |s| + n >= 0 then s[..|s| + n] else ""
  }

  // ---------------------------------------------------------------- deletion only

  /** `a` is `b` with some characters deleted: a subsequence of `b`. */
  predicate IsSubseq(a: string, b: string)
    decreases |b|
  {
    if b == [] then a == []
    else IsSubseq(a, b[1..]) || (a != [] && a[0] == b[0] && IsSubseq(a[1..], b[1..]))
  }

  /** Deleting a prefix of `b` first is still only deleting. */
  lemma {:induction false} SubseqOfSuffix(a: string, b: string, k: nat)
    requires k <= |b| && IsSubseq(a, b[k..])
    ensures IsSubseq(a, b)
    decreases k
  {
    if k > 0 {
      assert b[1..][k - 1..] == b[k..];
      SubseqOfSuffix(a, b[1..], k - 1);
    }
  }

  /** Two rounds of deletion are one. */
  lemma {:induction false} SubseqTrans(a: string, b: string, c: string)
    requires IsSubseq(a, b) && IsSubseq(b, c)
    ensures IsSubseq(a, c)
    decreases |c|
  {
    if c != [] {
      if IsSubseq(b, c[1..]) {
        SubseqTrans(a, b, c[1..]);
      } else if IsSubseq(a, b[1..]) {
        SubseqTrans(a, b[1..], c[1..]);
      } else {
        SubseqTrans(a[1..], b[1..], c[1..]);
      }
    }
  }

  /** A subsequence draws its characters from the original. */
  lemma {:induction false} SubseqMembers(a: string, b: string)
    requires IsSubseq(a, b)
    ensures forall c :: c in a ==> c in b
    decreases |b|
  {
    if b != [] {
      if IsSubseq(a, b[1..]) {
        SubseqMembers(a, b[1..]);
      } else {
        SubseqMembers(a[1..], b[1..]);
        assert a == [a[0]] + a[1..];
      }
    }
  }

  /** Every string is a subsequence of itself. */
  lemma {:induction false} SubseqRefl(s: string)
    ensures IsSubseq(s, s)
    decreases |s|
  {
    if s != [] {
      SubseqRefl(s[1..]);
    }
  }

  // ---------------------------------------------------------------- fixed-size slicing

  /** `[s[i:i+n] for i in range(0, len(s), n)]`. */
  function FixedSlices(s: string, n: nat): seq<string>
    requires n > 0
    decreases |s|
  {
    if s == [] then [] else if |s| <= n then [s] else [s[..n]] + FixedSlices(s[n..], n)
  }

  /** The slices are non-empty, at most `n` long, ceil(|s| / n) in number (the least count
      whose `n`-fold covers `s`), every one but the last exactly `n` long, and together they
      are `s`. */
  lemma FixedSlicesProperties(s: string, n: nat)
    requires n > 0
    ensures var p := FixedSlices(s, n);
      && Flatten(p) == s
      && (|p| - 1) * n < |s| <= |p| * n
      && (forall i :: 0 <= i < |p| ==> 0 < |p[i]| <= n)
      && (forall i :: 0 <= i < |p| - 1 ==> |p[i]| == n)
  {
    FixedSlicesFlatten(s, n);
    FixedSlicesCount(s, n);
    FixedSlicesSizes(s, n);
  }

  lemma {:induction false} FixedSlicesFlatten(s: string, n: nat)
    requires n > 0
    ensures Flatten(FixedSlices(s, n)) == s
    decreases |s|
  {
    if s != [] {
      if |s| <= n {
        FlattenSingle(s);
      } else {
        FixedSlicesFlatten(s[n..], n);
        TwoSlices(s, n);
      }
    }
  }

  lemma {:induction false} FixedSlicesCount(s: string, n: nat)
    requires n > 0
    ensures (|FixedSlices(s, n)| - 1) * n < |s| <= |FixedSlices(s, n)| * n
    decreases |s|
  {
    if |s| > n {
      FixedSlicesCount(s[n..], n);
      OneMoreSlice(|FixedSlices(s[n..], n)|, n);
    }
  }

  lemma OneMoreSlice(k: nat, n: nat)
    ensures (k + 1 - 1) * n == (k - 1) * n + n
    ensures (k + 1) * n == k * n + n
  {
  }

  lemma {:induction false} FixedSlicesSizes(s: string, n: nat)
    requires n > 0
    ensures forall i :: 0 <= i < |FixedSlices(s, n)| ==> 0 < |FixedSlices(s, n)[i]| <= n
    ensures forall i :: 0 <= i < |FixedSlices(s, n)| - 1 ==> |FixedSlices(s, n)[i]| == n
    decreases |s|
  {
    if |s| > n {
      FixedSlicesSizes(s[n..], n);
    }
  }
}
