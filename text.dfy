/** String operations of Python's `str` used by the pipeline: substring test
    (`in`), `replace`, `strip(chars)` and `"".join`. */
module Text {

  /** An ASCII decimal digit. */
  predicate IsDigit(c: char) {
    '0' <= c <= '9'
  }

  /** `p` is a prefix of `s`. */
  predicate IsPrefix(p: string, s: string) {
    |p| <= |s| && s[..|p|] == p
  }

  /** Python's `sub in s`: `sub` occurs somewhere in `s` (the empty string occurs everywhere). */
  predicate Contains(s: string, sub: string)
    decreases |s|
  {
    IsPrefix(sub, s) || (|s| > 0 && Contains(s[1..], sub))
  }

  /** `sub` occurs in `s` at position `i`. */
  predicate OccursAt(s: string, sub: string, i: int) {
    0 <= i <= |s| - |sub| && s[i..i + |sub|] == sub
  }

  /** An occurrence in the tail of `s` is an occurrence in `s`, one position later. */
  lemma OccursShift(s: string, sub: string, i: int)
    requires |s| > 0 && i >= 0
    ensures OccursAt(s, sub, i + 1) <==> OccursAt(s[1..], sub, i)
  {
    if 0 <= i <= |s| - 1 - |sub| {
      forall k | i + 1 <= k < i + 1 + |sub| ensures s[k] == s[1..][k - 1] {
      }
      assert s[i + 1..i + 1 + |sub|] == s[1..][i..i + |sub|];
    }
  }

  /** `Contains` agrees with the index-based definition of "occurs at some position". */
  lemma {:induction false} ContainsAt(s: string, sub: string)
    ensures Contains(s, sub) <==> exists i :: OccursAt(s, sub, i)
    decreases |s|
  {
    if IsPrefix(sub, s) {
      assert OccursAt(s, sub, 0);
    } else if |s| == 0 {
      assert sub != [] by { assert s[..0] == []; }
    } else {
      ContainsAt(s[1..], sub);
      if Contains(s[1..], sub) {
        var i :| OccursAt(s[1..], sub, i);
        OccursShift(s, sub, i);
      } else {
        forall i ensures !OccursAt(s, sub, i) {
          if i > 0 {
            OccursShift(s, sub, i - 1);
          }
        }
      }
    }
  }

  /** A string that contains `sub` contains every character of `sub`. */
  lemma ContainsChar(s: string, sub: string, k: nat)
    requires k < |sub|
    ensures Contains(s, sub) ==> sub[k] in s
  {
    ContainsAt(s, sub);
    if Contains(s, sub) {
      var i :| OccursAt(s, sub, i);
      assert s[i + k] == s[i..i + |sub|][k];
    }
  }

  /** Python's `s.replace(pat, rep)`: every non-overlapping occurrence of `pat`,
      found from the left, is replaced by `rep`. */
  function ReplaceAll(s: string, pat: string, rep: string): string
    requires pat != []
    decreases |s|
  {
    if |s| < |pat| then s
    else if s[..|pat|] == pat then rep + ReplaceAll(s[|pat|..], pat, rep)
    else [s[0]] + ReplaceAll(s[1..], pat, rep)
  }

  /** Python's `s.count(pat)`: the number of non-overlapping occurrences of `pat`, from the left. */
  function Occurrences(s: string, pat: string): nat
    requires pat != []
    decreases |s|
  {
    if |s| < |pat| then 0
    else if s[..|pat|] == pat then 1 + Occurrences(s[|pat|..], pat)
    else Occurrences(s[1..], pat)
  }

  /** A string without the pattern is returned unchanged. */
  lemma {:induction false} ReplaceAbsent(s: string, pat: string, rep: string)
    requires pat != [] && !Contains(s, pat)
    ensures ReplaceAll(s, pat, rep) == s
    ensures Occurrences(s, pat) == 0
    decreases |s|
  {
    if |s| >= |pat| {
      assert s[..|pat|] != pat;
      ReplaceAbsent(s[1..], pat, rep);
    }
  }

  /** A string with the pattern has at least one occurrence replaced. */
  lemma {:induction false} ReplacePresent(s: string, pat: string)
    requires pat != [] && Contains(s, pat)
    ensures Occurrences(s, pat) > 0
    decreases |s|
  {
    if IsPrefix(pat, s) {
    } else {
      ReplacePresent(s[1..], pat);
    }
  }

  /** Replacing a pattern by itself changes nothing. */
  lemma {:induction false} ReplaceBySelf(s: string, pat: string)
    requires pat != []
    ensures ReplaceAll(s, pat, pat) == s
    decreases |s|
  {
    if |s| < |pat| {
    } else if s[..|pat|] == pat {
      ReplaceBySelf(s[|pat|..], pat);
      assert s == s[..|pat|] + s[|pat|..];
    } else {
      ReplaceBySelf(s[1..], pat);
      assert s == [s[0]] + s[1..];
    }
  }

  /** Each replaced occurrence changes the length by `|rep| - |pat|`. */
  lemma {:induction false} ReplaceLength(s: string, pat: string, rep: string)
    requires pat != []
    ensures |ReplaceAll(s, pat, rep)| == |s| + Occurrences(s, pat) * (|rep| - |pat|)
    decreases |s|
  {
    if |s| < |pat| {
    } else if s[..|pat|] == pat {
      var t := s[|pat|..];
      ReplaceLength(t, pat, rep);
      StepLength(|ReplaceAll(t, pat, rep)|, |t|, Occurrences(t, pat), |pat|, |rep|);
    } else {
      ReplaceLength(s[1..], pat, rep);
    }
  }

  lemma StepLength(lr: int, lt: int, o: int, p: int, q: int)
    requires lr == lt + o * (q - p)
    ensures q + lr == (p + lt) + (1 + o) * (q - p)
  {
  }

  /** Python's `sep.join(us)` for a non-empty list: u0 + sep + u1 + ... + sep + un. */
  function Join(us: seq<string>, sep: string): string
    requires |us| > 0
    decreases |us|
  {
    if |us| == 1 then us[0] else us[0] + sep + Join(us[1..], sep)
  }

  /** Python's `s.split(pat)`: the pieces between the non-overlapping occurrences of
      `pat` that a scan from the left finds. */
  function Split(s: string, pat: string): (us: seq<string>)
    requires pat != []
    ensures |us| > 0
    decreases |s|
  {
    if |s| < |pat| then [s]
    else if s[..|pat|] == pat then [""] + Split(s[|pat|..], pat)
    else var vs := Split(s[1..], pat); [[s[0]] + vs[0]] + vs[1..]
  }

  /** Adding a character to the first piece adds it in front of the joined string. */
  lemma JoinFirst(c: char, vs: seq<string>, sep: string)
    requires |vs| > 0
    ensures Join([[c] + vs[0]] + vs[1..], sep) == [c] + Join(vs, sep)
  {
    var us := [[c] + vs[0]] + vs[1..];
    if |vs| > 1 {
      assert us[1..] == vs[1..];
    }
  }

  /** `s.replace(pat, rep)` is `rep.join(s.split(pat))`, and `s` itself is
      `pat.join(s.split(pat))`: `replace` puts `rep` exactly where the split cuts, once
      per occurrence. */
  lemma {:induction false} ReplaceJoin(s: string, pat: string, rep: string)
    requires pat != []
    ensures s == Join(Split(s, pat), pat)
    ensures ReplaceAll(s, pat, rep) == Join(Split(s, pat), rep)
    ensures |Split(s, pat)| == Occurrences(s, pat) + 1
    decreases |s|
  {
    if |s| < |pat| {
    } else if s[..|pat|] == pat {
      var t := s[|pat|..];
      ReplaceJoin(t, pat, rep);
      var us := [""] + Split(t, pat);
      assert us[1..] == Split(t, pat);
      assert s == s[..|pat|] + t;
    } else {
      var t := s[1..];
      ReplaceJoin(t, pat, rep);
      JoinFirst(s[0], Split(t, pat), pat);
      JoinFirst(s[0], Split(t, pat), rep);
      assert s == [s[0]] + t;
    }
  }

  /** `s` does not start with `pat` at any position before the end of its first piece:
      the split cuts at the leftmost occurrence. */
  lemma {:induction false} SplitLeftmost(s: string, pat: string)
    requires pat != []
    ensures Leads(s, pat, Split(s, pat)[0])
    decreases |s|
  {
    if |s| < |pat| {
      assert s[..|s|] == s;
    } else if s[..|pat|] == pat {
      assert s[..0] == [];
    } else {
      SplitLeftmost(s[1..], pat);
      LeadsPastFirst(s, pat, Split(s[1..], pat)[0]);
    }
  }

  /** The split, one cut at a time: a single piece is `s` itself; otherwise `pat` occurs
      right after the first piece, and the other pieces are the split of what follows
      that occurrence. With `SplitLeftmost` this determines every piece. */
  lemma {:induction false} SplitStep(s: string, pat: string)
    requires pat != []
    ensures var us := Split(s, pat);
      (|us| == 1 ==> us[0] == s) &&
      (|us| > 1 ==> OccursAt(s, pat, |us[0]|) && Split(s[|us[0]| + |pat|..], pat) == us[1..])
    decreases |s|
  {
    var us := Split(s, pat);
    if |s| < |pat| {
    } else if s[..|pat|] == pat {
      assert us[1..] == Split(s[|pat|..], pat);
    } else {
      var t := s[1..];
      var vs := Split(t, pat);
      SplitStep(t, pat);
      assert us[0] == [s[0]] + vs[0];
      if |vs| == 1 {
        assert s == [s[0]] + t;
      } else {
        OccursShift(s, pat, |vs[0]|);
        assert s[|us[0]| + |pat|..] == t[|vs[0]| + |pat|..];
        assert us[1..] == vs[1..];
      }
    }
  }

  /** `s` starts with `u`, and no occurrence of `pat` in `s` starts inside `u`. */
  predicate Leads(s: string, pat: string, u: string) {
    |u| <= |s| && s[..|u|] == u && forall j :: 0 <= j < |u| ==> !OccursAt(s, pat, j)
  }

  lemma LeadsPastFirst(s: string, pat: string, v: string)
    requires |pat| <= |s| && s[..|pat|] != pat && Leads(s[1..], pat, v)
    ensures Leads(s, pat, [s[0]] + v)
  {
    var u := [s[0]] + v;
    forall j | 0 <= j < |u| ensures !OccursAt(s, pat, j) {
      if j > 0 {
        OccursShift(s, pat, j - 1);
      }
    }
    assert s[..|u|] == [s[0]] + s[1..][..|v|];
  }

  /** No piece of the split holds `pat`. */
  lemma SplitPiecesFree(s: string, pat: string, i: nat)
    requires pat != [] && i < |Split(s, pat)|
    ensures !Contains(Split(s, pat)[i], pat)
    decreases |s|
  {
    var us := Split(s, pat);
    if |s| < |pat| {
      ShortFree(s, pat);
    } else if s[..|pat|] == pat {
      if i == 0 {
        ShortFree("", pat);
      } else {
        SplitPiecesFree(s[|pat|..], pat, i - 1);
      }
    } else {
      var vs := Split(s[1..], pat);
      if i > 0 {
        SplitPiecesFree(s[1..], pat, i);
      } else {
        SplitLeftmost(s, pat);
        LeadsFree(s, pat, us[0]);
      }
    }
  }

  /** A string shorter than `pat` does not hold it. */
  lemma ShortFree(s: string, pat: string)
    requires |s| < |pat|
    ensures !Contains(s, pat)
  {
    ContainsAt(s, pat);
  }

  /** A leading piece in which no occurrence starts holds no `pat`. */
  lemma LeadsFree(s: string, pat: string, u: string)
    requires pat != [] && Leads(s, pat, u)
    ensures !Contains(u, pat)
  {
    forall j | 0 <= j <= |u| - |pat| ensures !OccursAt(u, pat, j) {
      assert !OccursAt(s, pat, j);
      assert u[j..j + |pat|] == s[j..j + |pat|];
    }
    ContainsAt(u, pat);
  }

  /** `pat` laid over `rep` at offset `d` disagrees with it at a position they share. */
  predicate Mismatch(pat: string, rep: string, d: int) {
    exists k :: 0 <= k < |pat| && 0 <= d + k < |rep| && pat[k] != rep[d + k]
  }

  /** `pat` cannot overlap `rep`: at every offset where they share a position they
      disagree somewhere. */
  predicate NoOverlap(pat: string, rep: string) {
    forall d :: -|pat| < d < |rep| ==> Mismatch(pat, rep, d)
  }

  /** Pieces free of `pat`, joined by a `rep` that `pat` cannot overlap, hold no `pat`. */
  lemma {:induction false} JoinAvoids(us: seq<string>, pat: string, rep: string, q: int)
    requires |us| > 0 && pat != [] && NoOverlap(pat, rep)
    requires forall i :: 0 <= i < |us| ==> !Contains(us[i], pat)
    ensures !OccursAt(Join(us, rep), pat, q)
    decreases |us|
  {
    var j := Join(us, rep);
    var u := us[0];
    if 0 <= q <= |j| - |pat| {
      if q + |pat| <= |u| {
        ContainsAt(u, pat);
        assert !OccursAt(u, pat, q);
        assert j[q..q + |pat|] == u[q..q + |pat|];
      } else if |us| > 1 {
        var tail := Join(us[1..], rep);
        assert j == u + rep + tail;
        if q >= |u| + |rep| {
          forall i | 0 <= i < |us[1..]| ensures !Contains(us[1..][i], pat) {
            assert us[1..][i] == us[i + 1];
          }
          JoinAvoids(us[1..], pat, rep, q - |u| - |rep|);
          assert j[q..q + |pat|] == tail[q - |u| - |rep|..q - |u| - |rep| + |pat|];
        } else {
          var d := q - |u|;
          assert Mismatch(pat, rep, d);
          var k :| 0 <= k < |pat| && 0 <= d + k < |rep| && pat[k] != rep[d + k];
          assert j[q..q + |pat|][k] == rep[d + k];
        }
      }
    }
  }

  /** After `replace` by a `rep` that `pat` cannot overlap, no `pat` is left. */
  lemma ReplaceRemoves(s: string, pat: string, rep: string)
    requires pat != [] && NoOverlap(pat, rep)
    ensures !Contains(ReplaceAll(s, pat, rep), pat)
  {
    var us := Split(s, pat);
    ReplaceJoin(s, pat, rep);
    forall i | 0 <= i < |us| ensures !Contains(us[i], pat) {
      SplitPiecesFree(s, pat, i);
    }
    forall q ensures !OccursAt(Join(us, rep), pat, q) {
      JoinAvoids(us, pat, rep, q);
    }
    ContainsAt(Join(us, rep), pat);
  }

  /** A string holding `pat` holds `rep` after `replace`. */
  lemma ReplaceInserts(s: string, pat: string, rep: string)
    requires pat != [] && Contains(s, pat)
    ensures Contains(ReplaceAll(s, pat, rep), rep)
  {
    ReplacePresent(s, pat);
    ReplaceJoin(s, pat, rep);
    var us := Split(s, pat);
    var j := Join(us, rep);
    assert j == us[0] + rep + Join(us[1..], rep);
    assert OccursAt(j, rep, |us[0]|);
    ContainsAt(j, rep);
  }

  /** Python's `s.lstrip(chars)`. */
  function StripLeft(s: string, chars: set<char>): string
    decreases |s|
  {
    if |s| > 0 && s[0] in chars then StripLeft(s[1..], chars) else s
  }

  /** Python's `s.rstrip(chars)`. */
  function StripRight(s: string, chars: set<char>): string
    decreases |s|
  {
    if |s| > 0 && s[|s| - 1] in chars then StripRight(s[..|s| - 1], chars) else s
  }

  /** Python's `s.strip(chars)`: leading and trailing characters from `chars` removed. */
  function Strip(s: string, chars: set<char>): string {
    StripRight(StripLeft(s, chars), chars)
  }

  lemma {:induction false} StripLeftShape(s: string, chars: set<char>)
    ensures var r := StripLeft(s, chars);
      |r| <= |s| && r == s[|s| - |r|..] && (r == [] || r[0] !in chars) &&
      forall k :: 0 <= k < |s| - |r| ==> s[k] in chars
    decreases |s|
  {
    if |s| > 0 && s[0] in chars {
      StripLeftShape(s[1..], chars);
      var r := StripLeft(s, chars);
      forall k | 0 <= k < |s| - |r| ensures s[k] in chars {
        if k > 0 { assert s[k] == s[1..][k - 1]; }
      }
    }
  }

  lemma {:induction false} StripRightShape(s: string, chars: set<char>)
    ensures var r := StripRight(s, chars);
      |r| <= |s| && r == s[..|r|] && (r == [] || r[|r| - 1] !in chars) &&
      forall k :: |r| <= k < |s| ==> s[k] in chars
    decreases |s|
  {
    if |s| > 0 && s[|s| - 1] in chars {
      StripRightShape(s[..|s| - 1], chars);
    }
  }

  /** `Strip` removes exactly a run of `chars` at each end: the result is a slice
      `s[i..j]` that neither starts nor ends with one of `chars`, and everything cut
      away is in `chars`. */
  lemma StripShape(s: string, chars: set<char>)
    ensures var r := Strip(s, chars);
      (r == [] || (r[0] !in chars && r[|r| - 1] !in chars)) &&
      exists i, j :: 0 <= i <= j <= |s| && r == s[i..j] &&
        (forall k :: 0 <= k < i ==> s[k] in chars) && (forall k :: j <= k < |s| ==> s[k] in chars)
  {
    var l := StripLeft(s, chars);
    StripLeftShape(s, chars);
    StripRightShape(l, chars);
    var r := StripRight(l, chars);
    var i := |s| - |l|;
    var j := i + |r|;
    assert r == s[i..j];
    forall k | j <= k < |s| ensures s[k] in chars {
      assert s[k] == l[k - i];
    }
  }

  /** A string whose ends are not in `chars` is left unchanged by `Strip`. */
  lemma StripNothing(s: string, chars: set<char>)
    requires s == [] || (s[0] !in chars && s[|s| - 1] !in chars)
    ensures Strip(s, chars) == s
  {
  }

  /** Concatenation regroups freely. */
  lemma AppendAssoc(a: string, b: string, c: string)
    ensures (a + b) + c == a + (b + c)
  {
  }

  /** Python's `"".join(parts)`. */
  function Concat(parts: seq<string>): string {
    if parts == [] then "" else Concat(parts[..|parts| - 1]) + parts[|parts| - 1]
  }

  lemma {:induction false} ConcatAppend(a: seq<string>, b: seq<string>)
    ensures Concat(a + b) == Concat(a) + Concat(b)
    decreases |b|
  {
    if b == [] {
      assert a + b == a;
    } else {
      var b' := b[..|b| - 1];
      var last := b[|b| - 1];
      assert (a + b)[..|a + b| - 1] == a + b';
      assert (a + b)[|a + b| - 1] == last;
      ConcatAppend(a, b');
      assert Concat(b) == Concat(b') + last;
      AppendAssoc(Concat(a), Concat(b'), last);
    }
  }
}
