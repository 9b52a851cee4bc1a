/** Fixed-shape regular expressions as used by the worker's content check:
    a sequence of case-insensitive literals, greedy `.*` wildcards, optional
    single characters (`/?`) and one capturing `(.*)` group, compiled with
    `re.IGNORECASE` and without `re.DOTALL`.

    `Decomposes` is the declarative reading ("the text splits into one piece
    per template item, each fitting its item"); `Match` is the backtracking
    matcher, which tries longer alternatives first exactly as Python's engine
    does, and `Search`/`FindAll` are `re.search`/`re.findall` on top of it. */
module Template {
  import opened Base

  datatype Piece =
    | Lit(text: string)   // a literal, compared ignoring case
    | Star                // `.*`, greedy, never crosses a newline
    | Opt(c: char)        // `c?`, greedy
    | Group               // `(.*)`, a capturing greedy wildcard

  predicate IsWild(p: Piece) {
    p.Star? || p.Group?
  }

  /** Whether the single piece `p` accepts exactly the text `w`. */
  predicate Fits(p: Piece, w: string) {
    match p
    case Lit(x) => FoldEquals(x, w)
    case Star => NoNewline(w)
    case Group => NoNewline(w)
    case Opt(c) => |w| == 0 || (|w| == 1 && SameFold(c, w[0]))
  }

  function Concat(parts: seq<string>): string {
    if |parts| == 0 then [] else parts[0] + Concat(parts[1..])
  }

  /** `parts` cuts the text of `s` starting at `i` into one consecutive piece
      per item of `t`, each fitting its item: a match of `t` anchored at `i`.
      Nothing is required of the text after the last piece. */
  predicate Decomposes(t: seq<Piece>, s: string, i: nat, parts: seq<string>)
    requires i <= |s|
    decreases |t|
  {
    && |parts| == |t|
    && (|t| > 0 ==>
          && i + |parts[0]| <= |s|
          && parts[0] == s[i..i + |parts[0]|]
          && Fits(t[0], parts[0])
          && Decomposes(t[1..], s, i + |parts[0]|, parts[1..]))
  }

  /** The lengths of the pieces of a match: the choices a backtracking engine makes. */
  function Lengths(parts: seq<string>): (r: seq<nat>)
    ensures |r| == |parts|
  {
    if |parts| == 0 then [] else [|parts[0]|] + Lengths(parts[1..])
  }

  /** `a` is lexicographically strictly above `b`. */
  predicate LexAbove(a: seq<nat>, b: seq<nat>) {
    && |a| > 0 && |b| > 0
    && (a[0] > b[0] || (a[0] == b[0] && LexAbove(a[1..], b[1..])))
  }

  /** Number of characters from `i` up to the next newline or the end. */
  function LineRest(s: string, i: nat): (n: nat)
    requires i <= |s|
    ensures i + n <= |s|
    ensures NoNewline(s[i..i + n])
    ensures i + n == |s| || s[i + n] == '\n'
    decreases |s| - i
  {
    if i == |s| || s[i] == '\n' then 0
    else
      var m := LineRest(s, i + 1);
      assert s[i..i + 1 + m] == [s[i]] + s[i + 1..i + 1 + m];
      NoNewlineAppend([s[i]], s[i + 1..i + 1 + m]);
      1 + m
  }

  lemma ConcatCons(w: string, ps: seq<string>)
    ensures Concat([w] + ps) == w + Concat(ps)
  {
    assert ([w] + ps)[1..] == ps;
  }

  /** Extending a match of the rest of the template by one fitting piece. */
  lemma DecomposesCons(t: seq<Piece>, s: string, i: nat, w: string, ps: seq<string>)
    requires |t| > 0 && i + |w| <= |s| && w == s[i..i + |w|]
    requires Fits(t[0], w) && Decomposes(t[1..], s, i + |w|, ps)
    ensures Decomposes(t, s, i, [w] + ps)
  {
    assert ([w] + ps)[1..] == ps;
  }

  /** The pieces of a match, put back together, are the matched text. */
  lemma {:induction false} MatchedText(t: seq<Piece>, s: string, i: nat, parts: seq<string>)
    requires i <= |s| && Decomposes(t, s, i, parts)
    ensures i + |Concat(parts)| <= |s|
    ensures Concat(parts) == s[i..i + |Concat(parts)|]
    decreases |t|
  {
    if |t| > 0 {
      var w := parts[0];
      MatchedText(t[1..], s, i + |w|, parts[1..]);
      var c := Concat(parts[1..]);
      assert s[i..i + |w| + |c|] == s[i..i + |w|] + s[i + |w|..i + |w| + |c|];
    }
  }

  /** The backtracking matcher anchored at `i`: the first decomposition in
      the engine's order of preference, or None when there is none. */
  function Match(t: seq<Piece>, s: string, i: nat): (r: Option<seq<string>>)
    requires i <= |s|
    ensures r.Some? ==> |r.value| == |t|
    decreases |t|, 1
  {
    if |t| == 0 then Some([])
    else if t[0].Lit? then
      var n := |t[0].text|;
      if i + n <= |s| && FoldEquals(t[0].text, s[i..i + n]) then Advance(t, s, i, n) else None
    else if t[0].Opt? then
      if i < |s| && SameFold(t[0].c, s[i]) && Match(t[1..], s, i + 1).Some? then Advance(t, s, i, 1)
      else Advance(t, s, i, 0)
    else Longest(t, s, i, LineRest(s, i))
  }

  /** The head of `t` takes `s[i..i + n]`, the rest of `t` is matched after it. */
  function Advance(t: seq<Piece>, s: string, i: nat, n: nat): (r: Option<seq<string>>)
    requires |t| > 0 && i + n <= |s|
    ensures r.Some? ==> |r.value| == |t|
    decreases |t|, 0, 0
  {
    match Match(t[1..], s, i + n)
    case None => None
    case Some(rest) => Some([s[i..i + n]] + rest)
  }

  /** Tries the wildcard at the head of `t` with lengths `n`, `n - 1`, ..., 0. */
  function Longest(t: seq<Piece>, s: string, i: nat, n: nat): (r: Option<seq<string>>)
    requires |t| > 0 && i + n <= |s|
    ensures r.Some? ==> |r.value| == |t|
    decreases |t|, 0, n + 1
  {
    if Match(t[1..], s, i + n).Some? then Advance(t, s, i, n)
    else if n == 0 then None
    else Longest(t, s, i, n - 1)
  }

  /** What `Advance` builds: the text of length `n` at `i`, then the matcher's
      result for the rest. */
  lemma AdvanceShape(t: seq<Piece>, s: string, i: nat, n: nat)
    requires |t| > 0 && i + n <= |s|
    ensures Advance(t, s, i, n).Some? <==> Match(t[1..], s, i + n).Some?
    ensures Advance(t, s, i, n).Some? ==>
      var m := Advance(t, s, i, n).value;
      |m| > 0 && m[0] == s[i..i + n] && Match(t[1..], s, i + n) == Some(m[1..])
  {
    if Advance(t, s, i, n).Some? {
      var m := Advance(t, s, i, n).value;
      assert m[1..] == Match(t[1..], s, i + n).value;
    }
  }

  /** What `Longest` settles on: the first piece is the longest length not
      above `n` for which the rest of the template matches. */
  lemma {:induction false} LongestShape(t: seq<Piece>, s: string, i: nat, n: nat)
    requires |t| > 0 && i + n <= |s|
    requires Longest(t, s, i, n).Some?
    ensures var m := Longest(t, s, i, n).value;
      && |m| > 0 && |m[0]| <= n && m[0] == s[i..i + |m[0]|]
      && Match(t[1..], s, i + |m[0]|) == Some(m[1..])
      && forall j :: i + |m[0]| < j <= i + n ==> Match(t[1..], s, j).None?
    decreases n
  {
    if Match(t[1..], s, i + n).Some? {
      AdvanceShape(t, s, i, n);
    } else {
      LongestShape(t, s, i, n - 1);
    }
  }

  /** If the rest of the template matches after some length up to `n`,
      `Longest` succeeds. */
  lemma {:induction false} LongestComplete(t: seq<Piece>, s: string, i: nat, n: nat, k: nat)
    requires |t| > 0 && i + n <= |s|
    requires k <= n && Match(t[1..], s, i + k).Some?
    ensures Longest(t, s, i, n).Some?
    decreases n
  {
    if Match(t[1..], s, i + n).Some? {
      AdvanceShape(t, s, i, n);
    } else {
      LongestComplete(t, s, i, n - 1, k);
    }
  }

  /** Text without a newline that starts at `i` ends before the next newline. */
  lemma LineRestBounds(s: string, i: nat, w: string)
    requires i + |w| <= |s| && w == s[i..i + |w|] && NoNewline(w)
    ensures |w| <= LineRest(s, i)
  {
  }

  /** Every text from `i` that stops before the next newline is a single line. */
  lemma RunPrefix(s: string, i: nat, n: nat)
    requires i <= |s| && n <= LineRest(s, i)
    ensures NoNewline(s[i..i + n])
  {
    assert s[i..i + n] == s[i..i + LineRest(s, i)][..n];
  }

  /** The matcher's result splits into a fitting first piece taken from the
      text at `i` and the matcher's result for the rest of the template. */
  lemma MatchShape(t: seq<Piece>, s: string, i: nat)
    requires i <= |s| && |t| > 0 && Match(t, s, i).Some?
    ensures var m := Match(t, s, i).value;
      && |m| > 0 && i + |m[0]| <= |s| && m[0] == s[i..i + |m[0]|]
      && Fits(t[0], m[0])
      && Match(t[1..], s, i + |m[0]|) == Some(m[1..])
  {
    if t[0].Lit? {
      AdvanceShape(t, s, i, |t[0].text|);
    } else if t[0].Opt? {
      if i < |s| && SameFold(t[0].c, s[i]) && Match(t[1..], s, i + 1).Some? {
        AdvanceShape(t, s, i, 1);
      } else {
        AdvanceShape(t, s, i, 0);
      }
    } else {
      LongestShape(t, s, i, LineRest(s, i));
      RunPrefix(s, i, |Match(t, s, i).value[0]|);
    }
  }

  /** Soundness: what the matcher returns is a decomposition. */
  lemma {:induction false} MatchSound(t: seq<Piece>, s: string, i: nat)
    requires i <= |s| && Match(t, s, i).Some?
    ensures Decomposes(t, s, i, Match(t, s, i).value)
    decreases |t|
  {
    if |t| > 0 {
      var m := Match(t, s, i).value;
      MatchShape(t, s, i);
      MatchSound(t[1..], s, i + |m[0]|);
    }
  }

  /** One step of completeness: a fitting head piece followed by a match of
      the rest makes the matcher succeed. */
  lemma MatchCompleteHead(t: seq<Piece>, s: string, i: nat, w: string)
    requires |t| > 0 && i + |w| <= |s| && w == s[i..i + |w|] && Fits(t[0], w)
    requires Match(t[1..], s, i + |w|).Some?
    ensures Match(t, s, i).Some?
  {
    if t[0].Lit? {
      AdvanceShape(t, s, i, |w|);
    } else if t[0].Opt? {
      if |w| == 1 {
        assert s[i] == w[0];
        AdvanceShape(t, s, i, 1);
      } else {
        AdvanceShape(t, s, i, 0);
      }
    } else {
      LineRestBounds(s, i, w);
      LongestComplete(t, s, i, LineRest(s, i), |w|);
    }
  }

  /** Completeness: whenever a decomposition exists, the matcher finds one. */
  lemma {:induction false} MatchComplete(t: seq<Piece>, s: string, i: nat, parts: seq<string>)
    requires i <= |s| && Decomposes(t, s, i, parts)
    ensures Match(t, s, i).Some?
    decreases |t|
  {
    if |t| > 0 {
      MatchComplete(t[1..], s, i + |parts[0]|, parts[1..]);
      MatchCompleteHead(t, s, i, parts[0]);
    }
  }

  /** `c?` takes the character whenever the rest can match after it. */
  lemma OptPrefersPresent(t: seq<Piece>, s: string, i: nat)
    requires |t| > 0 && t[0].Opt? && i < |s| && SameFold(t[0].c, s[i])
    requires Match(t[1..], s, i + 1).Some?
    ensures Match(t, s, i).Some? && |Match(t, s, i).value[0]| == 1
  {
    AdvanceShape(t, s, i, 1);
  }

  /** `.*` takes at least every length after which the rest can match. */
  lemma WildPrefersLonger(t: seq<Piece>, s: string, i: nat, k: nat)
    requires |t| > 0 && IsWild(t[0]) && i <= |s| && k <= LineRest(s, i)
    requires Match(t[1..], s, i + k).Some?
    ensures Match(t, s, i).Some? && k <= |Match(t, s, i).value[0]|
  {
    LongestComplete(t, s, i, LineRest(s, i), k);
    LongestShape(t, s, i, LineRest(s, i));
  }

  /** The head piece the matcher chooses is at least as long as the head of
      any decomposition. */
  lemma MatchGreedyHead(t: seq<Piece>, s: string, i: nat, parts: seq<string>)
    requires i <= |s| && |t| > 0 && Decomposes(t, s, i, parts)
    requires Match(t, s, i).Some?
    ensures |parts[0]| <= |Match(t, s, i).value[0]|
  {
    var w := parts[0];
    MatchComplete(t[1..], s, i + |w|, parts[1..]);
    HeadGreedy(t, s, i, w);
  }

  /** A head piece after which the rest of the template matches is no longer
      than the matcher's head piece. */
  lemma HeadGreedy(t: seq<Piece>, s: string, i: nat, w: string)
    requires |t| > 0 && i + |w| <= |s| && w == s[i..i + |w|] && Fits(t[0], w)
    requires Match(t[1..], s, i + |w|).Some? && Match(t, s, i).Some?
    ensures |w| <= |Match(t, s, i).value[0]|
  {
    if t[0].Lit? {
      MatchShape(t, s, i);
    } else if t[0].Opt? {
      OptHeadGreedy(t, s, i, w);
    } else {
      LineRestBounds(s, i, w);
      WildPrefersLonger(t, s, i, |w|);
    }
  }

  lemma OptHeadGreedy(t: seq<Piece>, s: string, i: nat, w: string)
    requires |t| > 0 && t[0].Opt? && i + |w| <= |s| && w == s[i..i + |w|] && Fits(t[0], w)
    requires Match(t[1..], s, i + |w|).Some? && Match(t, s, i).Some?
    ensures |w| <= |Match(t, s, i).value[0]|
  {
    if |w| == 1 {
      assert s[i] == w[0];
      OptPrefersPresent(t, s, i);
    }
  }

  /** Greedy priority: no decomposition chooses a lexicographically longer
      vector of piece lengths than the matcher's. Every item prefers the
      longer alternative first (`.*` the longest run, `c?` the present
      character), so this is exactly the backtracking engine's choice. */
  lemma {:induction false} MatchGreedy(t: seq<Piece>, s: string, i: nat, parts: seq<string>)
    requires i <= |s| && Decomposes(t, s, i, parts)
    ensures Match(t, s, i).Some?
    ensures !LexAbove(Lengths(parts), Lengths(Match(t, s, i).value))
    decreases |t|
  {
    MatchComplete(t, s, i, parts);
    if |t| > 0 {
      var m := Match(t, s, i).value;
      MatchGreedyHead(t, s, i, parts);
      if |parts[0]| == |m[0]| {
        MatchShape(t, s, i);
        MatchGreedy(t[1..], s, i + |m[0]|, parts[1..]);
        assert Lengths(parts)[1..] == Lengths(parts[1..]);
        assert Lengths(m)[1..] == Lengths(m[1..]);
      }
    }
  }

  /** The decomposition a backtracking engine settles on: a decomposition
      whose length vector no other decomposition exceeds lexicographically. */
  ghost predicate Preferred(t: seq<Piece>, s: string, i: nat, parts: seq<string>)
    requires i <= |s|
  {
    && Decomposes(t, s, i, parts)
    && forall q :: Decomposes(t, s, i, q) ==> !LexAbove(Lengths(q), Lengths(parts))
  }

  /** Lexicographic order is total on vectors of equal length. */
  lemma {:induction false} LexTotal(a: seq<nat>, b: seq<nat>)
    requires |a| == |b| && !LexAbove(a, b) && !LexAbove(b, a)
    ensures a == b
    decreases |a|
  {
    if |a| > 0 {
      LexTotal(a[1..], b[1..]);
      assert a == [a[0]] + a[1..] && b == [b[0]] + b[1..];
    }
  }

  /** A decomposition is fixed by the lengths of its pieces. */
  lemma {:induction false} DecomposesByLengths(t: seq<Piece>, s: string, i: nat, a: seq<string>, b: seq<string>)
    requires i <= |s| && Decomposes(t, s, i, a) && Decomposes(t, s, i, b)
    requires Lengths(a) == Lengths(b)
    ensures a == b
    decreases |t|
  {
    if |t| > 0 {
      assert Lengths(a)[0] == |a[0]| && Lengths(b)[0] == |b[0]|;
      assert Lengths(a)[1..] == Lengths(a[1..]) && Lengths(b)[1..] == Lengths(b[1..]);
      DecomposesByLengths(t[1..], s, i + |a[0]|, a[1..], b[1..]);
      assert a == [a[0]] + a[1..] && b == [b[0]] + b[1..];
    }
  }

  /** There is at most one preferred decomposition. */
  lemma PreferredUnique(t: seq<Piece>, s: string, i: nat, a: seq<string>, b: seq<string>)
    requires i <= |s| && Preferred(t, s, i, a) && Preferred(t, s, i, b)
    ensures a == b
  {
    LexTotal(Lengths(a), Lengths(b));
    DecomposesByLengths(t, s, i, a, b);
  }

  /** The matcher returns exactly the preferred decomposition, and finds one
      whenever the template matches at all. */
  lemma MatchIsPreferred(t: seq<Piece>, s: string, i: nat)
    requires i <= |s|
    ensures Match(t, s, i).Some? <==> exists parts :: Decomposes(t, s, i, parts)
    ensures Match(t, s, i).Some? ==> Preferred(t, s, i, Match(t, s, i).value)
    ensures forall parts :: Preferred(t, s, i, parts) ==> Match(t, s, i) == Some(parts)
  {
    if Match(t, s, i).Some? {
      var m := Match(t, s, i).value;
      MatchSound(t, s, i);
      assert exists parts :: Decomposes(t, s, i, parts) by {
        assert Decomposes(t, s, i, m);
      }
      forall q | Decomposes(t, s, i, q)
        ensures !LexAbove(Lengths(q), Lengths(m))
      {
        MatchGreedy(t, s, i, q);
      }
      forall parts | Preferred(t, s, i, parts)
        ensures Match(t, s, i) == Some(parts)
      {
        PreferredUnique(t, s, i, m, parts);
      }
    } else {
      forall parts | Decomposes(t, s, i, parts)
        ensures false
      {
        MatchComplete(t, s, i, parts);
      }
    }
  }

  /** Index of the first capturing group in `t`, if any. */
  function GroupIndex(t: seq<Piece>): (r: Option<nat>)
    ensures r.Some? ==> r.value < |t| && t[r.value].Group?
    ensures r.Some? ==> forall k :: 0 <= k < r.value ==> !t[k].Group?
    ensures r.None? ==> forall k :: 0 <= k < |t| ==> !t[k].Group?
  {
    if |t| == 0 then None
    else if t[0].Group? then Some(0)
    else
      match GroupIndex(t[1..])
      case None => None
      case Some(k) => Some(k + 1)
  }

  /** The first group of `t` is at `k` when `t[k]` is a group and nothing
      before it is. */
  lemma {:induction false} GroupIndexAt(t: seq<Piece>, k: nat)
    requires k < |t| && t[k].Group? && forall j :: 0 <= j < k ==> !t[j].Group?
    ensures GroupIndex(t) == Some(k)
    decreases k
  {
    if k > 0 {
      GroupIndexAt(t[1..], k - 1);
    }
  }

  /** What `findall` reports for one match: the text of the group, or the
      whole match when the template has no group. */
  function Capture(t: seq<Piece>, parts: seq<string>): string
    requires |parts| == |t|
  {
    match GroupIndex(t)
    case Some(k) => parts[k]
    case None => Concat(parts)
  }

  /** `re.search` from position `p`: the leftmost start at which the template
      matches, with the matcher's decomposition there. */
  function Search(t: seq<Piece>, s: string, p: nat): (r: Option<(nat, seq<string>)>)
    requires p <= |s|
    ensures r.Some? ==> p <= r.value.0 <= |s| && Match(t, s, r.value.0) == Some(r.value.1)
    ensures r.Some? ==> forall q :: p <= q < r.value.0 ==> Match(t, s, q).None?
    ensures r.None? ==> forall q :: p <= q <= |s| ==> Match(t, s, q).None?
    decreases |s| - p
  {
    var m := Match(t, s, p);
    if m.Some? then Some((p, m.value))
    else if p == |s| then None
    else Search(t, s, p + 1)
  }

  /** `re.findall` from position `p`: the capture of every non-overlapping
      leftmost match, each search resuming where the previous match ended
      (one position further after an empty match). */
  function FindAll(t: seq<Piece>, s: string, p: nat): seq<string>
    requires p <= |s|
    decreases |s| - p
  {
    match Search(t, s, p)
    case None => []
    case Some((q, m)) =>
      MatchSound(t, s, q);
      MatchedText(t, s, q, m);
      var e := q + |Concat(m)|;
      [Capture(t, m)] + (if e > q then FindAll(t, s, e) else if q < |s| then FindAll(t, s, q + 1) else [])
  }

  /** A match anchored at `p` is the first thing `findall` reports. */
  lemma FindAllStartsWithAnchoredMatch(t: seq<Piece>, s: string, p: nat)
    requires p <= |s| && Match(t, s, p).Some?
    ensures |FindAll(t, s, p)| >= 1
    ensures FindAll(t, s, p)[0] == Capture(t, Match(t, s, p).value)
  {
  }

  /** `findall` reports something whenever the template matches anywhere
      from `p` on. */
  lemma FindAllNonEmpty(t: seq<Piece>, s: string, p: nat, q: nat)
    requires p <= q <= |s| && Match(t, s, q).Some?
    ensures |FindAll(t, s, p)| >= 1
  {
  }

  /** A decomposition only looks at the text it covers. */
  lemma {:induction false} DecomposesExtend(t: seq<Piece>, s: string, rest: string, i: nat, parts: seq<string>)
    requires i <= |s| && Decomposes(t, s, i, parts)
    ensures Decomposes(t, s + rest, i, parts)
    decreases |t|
  {
    if |t| > 0 {
      var w := parts[0];
      assert (s + rest)[i..i + |w|] == s[i..i + |w|];
      DecomposesExtend(t[1..], s, rest, i + |w|, parts[1..]);
    }
  }

  /** Matching is anchored at the start only: text after a match never
      undoes it. */
  lemma MatchIgnoresTrailing(t: seq<Piece>, s: string, rest: string, i: nat)
    requires i <= |s| && Match(t, s, i).Some?
    ensures Match(t, s + rest, i).Some?
  {
    MatchSound(t, s, i);
    DecomposesExtend(t, s, rest, i, Match(t, s, i).value);
    MatchComplete(t, s + rest, i, Match(t, s, i).value);
  }

  /** The same template pieces accept text that differs only in letter case. */
  lemma FitsIgnoresCase(p: Piece, w: string, w': string)
    requires Fits(p, w) && FoldEquals(w, w')
    ensures Fits(p, w')
  {
    NoNewlineRespectsFold(w, w');
    forall k | 0 <= k < |w|
      ensures SameFold(w[k], w'[k])
    {
    }
  }

  /** Carrying a decomposition over to a text equal up to letter case. */
  lemma {:induction false} DecomposesIgnoresCase(t: seq<Piece>, s: string, s': string, i: nat, parts: seq<string>)
    returns (parts': seq<string>)
    requires i <= |s| && |s'| == |s| && FoldEquals(s, s') && Decomposes(t, s, i, parts)
    ensures Decomposes(t, s', i, parts')
    ensures Lengths(parts') == Lengths(parts)
    decreases |t|
  {
    if |t| == 0 {
      parts' := [];
    } else {
      var w := parts[0];
      var w' := s'[i..i + |w|];
      FitsIgnoresCase(t[0], w, w');
      var rest' := DecomposesIgnoresCase(t[1..], s, s', i + |w|, parts[1..]);
      DecomposesCons(t, s', i, w', rest');
      parts' := [w'] + rest';
      assert Lengths(parts')[1..] == Lengths(rest');
      assert Lengths(parts)[1..] == Lengths(parts[1..]);
    }
  }

  /** Letter case in the text never decides whether the template matches:
      literals are compared ignoring case, wildcards accept any letter. */
  lemma MatchIgnoresCase(t: seq<Piece>, s: string, s': string, i: nat)
    requires i <= |s| && |s'| == |s| && FoldEquals(s, s')
    ensures Match(t, s, i).Some? <==> Match(t, s', i).Some?
  {
    if Match(t, s, i).Some? {
      MatchSound(t, s, i);
      var p' := DecomposesIgnoresCase(t, s, s', i, Match(t, s, i).value);
      MatchComplete(t, s', i, p');
    }
    if Match(t, s', i).Some? {
      forall k | 0 <= k < |s'|
        ensures SameFold(s'[k], s[k])
      {
        SameFoldIsEquivalence(s[k], s'[k], s'[k]);
      }
      MatchSound(t, s', i);
      var p := DecomposesIgnoresCase(t, s', s, i, Match(t, s', i).value);
      MatchComplete(t, s, i, p);
    }
  }

  /** Templates whose literals and optional characters contain no newline. */
  predicate SingleLine(t: seq<Piece>) {
    forall k :: 0 <= k < |t| ==> match t[k]
      case Lit(x) => NoNewline(x)
      case Opt(c) => c != '\n'
      case _ => true
  }

  /** A single-line template only ever matches text within one line. */
  lemma {:induction false} MatchWithinOneLine(t: seq<Piece>, s: string, i: nat, parts: seq<string>)
    requires i <= |s| && SingleLine(t) && Decomposes(t, s, i, parts)
    ensures NoNewline(Concat(parts))
    ensures forall k :: 0 <= k < |parts| ==> NoNewline(parts[k])
    decreases |t|
  {
    if |t| > 0 {
      var w := parts[0];
      match t[0] {
        case Lit(x) => NoNewlineRespectsFold(x, w);
        case Opt(c) =>
          if |w| == 1 { assert Fold(w[0]) == Fold(c); }
        case Star =>
        case Group =>
      }
      assert SingleLine(t[1..]) by {
        forall k | 0 <= k < |t| - 1
          ensures t[1..][k] == t[k + 1]
        {
        }
      }
      MatchWithinOneLine(t[1..], s, i + |w|, parts[1..]);
      ConcatCons(w, parts[1..]);
      assert parts == [w] + parts[1..];
      NoNewlineAppend(w, Concat(parts[1..]));
      forall k | 0 <= k < |parts|
        ensures NoNewline(parts[k])
      {
        if k > 0 { assert parts[k] == parts[1..][k - 1]; }
      }
    }
  }

  /** The capture reported for a match of a single-line template is a single line. */
  lemma CaptureWithinOneLine(t: seq<Piece>, s: string, i: nat, parts: seq<string>)
    requires i <= |s| && SingleLine(t) && Decomposes(t, s, i, parts)
    ensures NoNewline(Capture(t, parts))
  {
    MatchWithinOneLine(t, s, i, parts);
  }

  /** A matched text is at least as long as its first literal. */
  lemma MatchLongerThanHead(t: seq<Piece>, s: string, i: nat, parts: seq<string>)
    requires i <= |s| && |t| > 0 && Decomposes(t, s, i, parts)
    ensures |Concat(parts)| >= |parts[0]|
  {
    assert parts == [parts[0]] + parts[1..];
    ConcatCons(parts[0], parts[1..]);
  }
}
