/**
 * A hand-written matcher for the one regular expression `findIndexes` uses,
 *
 *     /KEY\s+([^\(\s]+)\s*\(([^\(\)]+)\)/mi
 *
 * run the way `preg_match_all` runs it: scan left to right, take the leftmost
 * match, resume after its end. Every quantifier in the pattern is greedy and is
 * followed by a character its class excludes, so backtracking never changes the
 * outcome: each run is the maximal one. `MatchAtComplete` proves that.
 */
module KeyPattern {
  import opened Wrappers

  /** `\s` of PCRE without the UTF flag: space, HT, LF, VT, FF and CR. */
  predicate IsSpace(ch: char)
  {
    ch == ' ' || ch == '\t' || ch == '\n' || ch == '\U{B}' || ch == '\U{C}' || ch == '\r'
  }

  /** The three character classes the pattern repeats. */
  datatype CharClass =
    | Space      // \s
    | NameChar   // [^\(\s]
    | ColumnChar // [^\(\)]

  predicate InClass(ch: char, k: CharClass)
  {
    match k
    case Space => IsSpace(ch)
    case NameChar => ch != '(' && !IsSpace(ch)
    case ColumnChar => ch != '(' && ch != ')'
  }

  /** The end of the longest run of `k` characters starting at `j`. */
  function RunEnd(s: string, j: nat, k: CharClass): (e: nat)
    requires j <= |s|
    ensures j <= e <= |s|
    ensures forall x {:trigger InClass(s[x], k)} :: j <= x < e ==> InClass(s[x], k)
    ensures e == |s| || !InClass(s[e], k)
    decreases |s| - j
  {
    if j < |s| && InClass(s[j], k) then RunEnd(s, j + 1, k) else j
  }

  /** `KEY` under the `i` flag (ASCII case folding only). */
  predicate IsKeyword(s: string, i: nat)
  {
    && i + 3 <= |s|
    && (s[i] == 'K' || s[i] == 'k')
    && (s[i + 1] == 'E' || s[i + 1] == 'e')
    && (s[i + 2] == 'Y' || s[i + 2] == 'y')
  }

  /** One match: the two capture groups and the span `[start, end)` it covers. */
  datatype Match = Match(name: string, columns: string, start: nat, end: nat)

  /**
   * The pattern read literally, with the positions of its parts:
   * `KEY` at i, whitespace on [i+3, a), the name on [a, b), whitespace on [b, c),
   * `(` at c, the column list on [c+1, d), `)` at d.
   */
  ghost predicate PatternAt(s: string, i: nat, a: nat, b: nat, c: nat, d: nat)
  {
    && IsKeyword(s, i)
    && i + 3 < a < b <= c && c + 1 < d < |s|
    && (forall x :: i + 3 <= x < a ==> InClass(s[x], Space))
    && (forall x :: a <= x < b ==> InClass(s[x], NameChar))
    && (forall x :: b <= x < c ==> InClass(s[x], Space))
    && s[c] == '('
    && (forall x :: c + 1 <= x < d ==> InClass(s[x], ColumnChar))
    && s[d] == ')'
  }

  /** Try the pattern at exactly position `i`. */
  function MatchAt(s: string, i: nat): (r: Option<Match>)
    requires i <= |s|
    ensures r.Some? ==> r.value.start == i && i < r.value.end <= |s|
  {
    if !IsKeyword(s, i) then None
    else
      var a := RunEnd(s, i + 3, Space);
      if a == i + 3 then None
      else
        var b := RunEnd(s, a, NameChar);
        if b == a then None
        else
          var c := RunEnd(s, b, Space);
          if c == |s| || s[c] != '(' then None
          else
            var d := RunEnd(s, c + 1, ColumnChar);
            if d == c + 1 || d == |s| || s[d] != ')' then None
            else Some(Match(s[a..b], s[c + 1..d], i, d + 1))
  }

  /** A match `MatchAt` reports is an instance of the pattern read literally. */
  lemma MatchAtSound(s: string, i: nat)
    requires i <= |s| && MatchAt(s, i).Some?
    ensures exists a: nat, b: nat, c: nat, d: nat :: PatternAt(s, i, a, b, c, d)
              && MatchAt(s, i).value == Match(s[a..b], s[c + 1..d], i, d + 1)
  {
    var a := RunEnd(s, i + 3, Space);
    var b := RunEnd(s, a, NameChar);
    var c := RunEnd(s, b, Space);
    var d := RunEnd(s, c + 1, ColumnChar);
    assert PatternAt(s, i, a, b, c, d);
  }

  /** A run that is followed by a character outside its class is the maximal run. */
  lemma RunEndIsMaximal(s: string, j: nat, k: CharClass, e: nat)
    requires j <= e < |s|
    requires forall x :: j <= x < e ==> InClass(s[x], k)
    requires !InClass(s[e], k)
    ensures RunEnd(s, j, k) == e
  {
  }

  /** Every instance of the pattern at `i` is the one `MatchAt` reports: the regex has no other reading. */
  lemma {:induction false} MatchAtComplete(s: string, i: nat, a: nat, b: nat, c: nat, d: nat)
    requires PatternAt(s, i, a, b, c, d)
    ensures MatchAt(s, i) == Some(Match(s[a..b], s[c + 1..d], i, d + 1))
  {
    assert InClass(s[a], NameChar);
    RunEndIsMaximal(s, i + 3, Space, a);
    if b < c {
      assert InClass(s[b], Space);
    }
    RunEndIsMaximal(s, a, NameChar, b);
    RunEndIsMaximal(s, b, Space, c);
    RunEndIsMaximal(s, c + 1, ColumnChar, d);
    MatchAtFromRuns(s, i, a, b, c, d);
  }

  /** `MatchAt` once the four runs are known to end at `a`, `b`, `c` and `d`. */
  lemma MatchAtFromRuns(s: string, i: nat, a: nat, b: nat, c: nat, d: nat)
    requires IsKeyword(s, i) && i + 3 < a < b <= c && c + 1 < d < |s|
    requires RunEnd(s, i + 3, Space) == a && RunEnd(s, a, NameChar) == b
    requires RunEnd(s, b, Space) == c && RunEnd(s, c + 1, ColumnChar) == d
    requires s[c] == '(' && s[d] == ')'
    ensures MatchAt(s, i) == Some(Match(s[a..b], s[c + 1..d], i, d + 1))
  {
  }

  /**
   * A matcher for a subject of length `n`: a match it reports at `p` starts at `p`
   * and ends after `p`, within the subject.
   */
  ghost predicate Advances(at: nat -> Option<Match>, n: nat)
  {
    forall p: nat :: at(p).Some? ==> at(p).value.start == p && p < at(p).value.end <= n
  }

  /** No match starts anywhere in `[lo, hi)`. */
  ghost predicate Unmatched(at: nat -> Option<Match>, lo: nat, hi: nat)
  {
    forall p: nat :: lo <= p < hi ==> at(p).None?
  }

  /**
   * `preg_match_all` from position `i`: try the pattern at `i`; on a match record it
   * and resume at its end, otherwise resume at `i + 1`. The matches come in order,
   * without overlapping.
   */
  function Scan(at: nat -> Option<Match>, n: nat, i: nat): (r: seq<Match>)
    requires i <= n && Advances(at, n)
    ensures forall k :: 0 <= k < |r| ==> i <= r[k].start && at(r[k].start) == Some(r[k])
    ensures forall k :: 0 <= k < |r| - 1 ==> r[k].end <= r[k + 1].start
    decreases n - i
  {
    if i == n then []
    else
      match at(i)
      case Some(m) => [m] + Scan(at, n, m.end)
      case None => Scan(at, n, i + 1)
  }

  /** No match starts between `i` and the first match the scan reports (or the end, if it reports none). */
  lemma {:induction false} ScanMissesNoneBefore(at: nat -> Option<Match>, n: nat, i: nat)
    requires i <= n && Advances(at, n)
    ensures var r := Scan(at, n, i); Unmatched(at, i, if |r| == 0 then n else r[0].start)
    decreases n - i
  {
    if i < n && at(i).None? {
      ScanMissesNoneBefore(at, n, i + 1);
    }
  }

  /** No match starts between the `k`-th and the next match the scan reports. */
  lemma {:induction false} ScanMissesNoneBetween(at: nat -> Option<Match>, n: nat, i: nat, k: nat)
    requires i <= n && Advances(at, n)
    requires k + 1 < |Scan(at, n, i)|
    ensures Unmatched(at, Scan(at, n, i)[k].end, Scan(at, n, i)[k + 1].start)
    decreases n - i
  {
    if at(i).None? {
      ScanMissesNoneBetween(at, n, i + 1, k);
    } else {
      var m := at(i).value;
      var t := Scan(at, n, m.end);
      assert Scan(at, n, i) == [m] + t;
      assert Scan(at, n, i)[k + 1] == t[k];
      if k == 0 {
        assert Scan(at, n, i)[0] == m;
        ScanMissesNoneBefore(at, n, m.end);
      } else {
        assert Scan(at, n, i)[k] == t[k - 1];
        ScanMissesNoneBetween(at, n, m.end, k - 1);
      }
    }
  }

  /** No match starts after the last match the scan reports. */
  lemma {:induction false} ScanMissesNoneAfter(at: nat -> Option<Match>, n: nat, i: nat)
    requires i <= n && Advances(at, n)
    ensures var r := Scan(at, n, i); |r| > 0 ==> Unmatched(at, r[|r| - 1].end, n)
    decreases n - i
  {
    if i < n {
      if at(i).None? {
        ScanMissesNoneAfter(at, n, i + 1);
      } else {
        var m := at(i).value;
        var t := Scan(at, n, m.end);
        assert Scan(at, n, i) == [m] + t;
        if |t| == 0 {
          ScanMissesNoneBefore(at, n, m.end);
        } else {
          ScanMissesNoneAfter(at, n, m.end);
        }
      }
    }
  }

  /** The pattern tried at every position of `s` (and nowhere past its end). */
  function MatcherOf(s: string): (at: nat -> Option<Match>)
    ensures Advances(at, |s|)
  {
    (p: nat) => if p <= |s| then MatchAt(s, p) else None
  }

  /** All matches of the pattern in `s`, as `preg_match_all` with `PREG_SET_ORDER` lists them. */
  function AllMatches(s: string): (r: seq<Match>)
    ensures forall k :: 0 <= k < |r| - 1 ==> r[k].end <= r[k + 1].start
  {
    Scan(MatcherOf(s), |s|, 0)
  }

  /** Every reported match is the pattern's match at its own start. */
  lemma AllMatchesAreMatches(s: string, k: nat)
    requires k < |AllMatches(s)|
    ensures AllMatches(s)[k].start <= |s| && MatchAt(s, AllMatches(s)[k].start) == Some(AllMatches(s)[k])
  {
    var at := MatcherOf(s);
    assert at(AllMatches(s)[k].start) == Some(AllMatches(s)[k]);
  }

  /** A position where the matcher matches is covered by a match the scan reports. */
  lemma ScanCovers(at: nat -> Option<Match>, n: nat, p: nat)
    requires Advances(at, n) && at(p).Some?
    ensures exists k :: 0 <= k < |Scan(at, n, 0)| && Scan(at, n, 0)[k].start <= p < Scan(at, n, 0)[k].end
  {
    var r := Scan(at, n, 0);
    ScanMissesNoneBefore(at, n, 0);
    assert |r| > 0 && r[0].start <= p;
    ScanMissesNoneAfter(at, n, 0);
    assert p < r[|r| - 1].end;
    var k := FirstEndingAfter(r, p);
    if k > 0 {
      ScanMissesNoneBetween(at, n, 0, k - 1);
    }
    assert r[k].start <= p < r[k].end;
  }

  /**
   * `AllMatches` misses nothing: a position where the pattern matches is either the
   * start of a reported match or lies strictly inside one.
   */
  lemma AllMatchesComplete(s: string, p: nat)
    requires p <= |s| && MatchAt(s, p).Some?
    ensures exists k :: 0 <= k < |AllMatches(s)| && AllMatches(s)[k].start <= p < AllMatches(s)[k].end
  {
    var at := MatcherOf(s);
    var r := AllMatches(s);
    assert at(p).Some? && r == Scan(at, |s|, 0);
    ScanCovers(at, |s|, p);
    var k :| 0 <= k < |r| && r[k].start <= p < r[k].end;
  }

  /** The first match in `r` that ends after `p`, given that the last one does. */
  function FirstEndingAfter(r: seq<Match>, p: nat): (k: nat)
    requires |r| > 0 && p < r[|r| - 1].end
    ensures k < |r| && p < r[k].end && (k == 0 || r[k - 1].end <= p)
  {
    if p < r[0].end then 0 else 1 + FirstEndingAfter(r[1..], p)
  }

  /** What the captures of a match can contain: the name has no `(` and no whitespace, the column list no parenthesis, and neither is empty. */
  lemma MatchAtCaptures(s: string, i: nat)
    requires i <= |s| && MatchAt(s, i).Some?
    ensures var m := MatchAt(s, i).value;
      && m.name != [] && m.columns != []
      && (forall y :: 0 <= y < |m.name| ==> m.name[y] != '(' && !IsSpace(m.name[y]))
      && (forall y :: 0 <= y < |m.columns| ==> m.columns[y] != '(' && m.columns[y] != ')')
  {
    var a := RunEnd(s, i + 3, Space);
    var b := RunEnd(s, a, NameChar);
    var c := RunEnd(s, b, Space);
    var d := RunEnd(s, c + 1, ColumnChar);
    var m := MatchAt(s, i).value;
    assert m.name == s[a..b] && m.columns == s[c + 1..d];
    forall y | 0 <= y < |m.name| ensures m.name[y] != '(' && !IsSpace(m.name[y]) {
      assert InClass(s[a + y], NameChar);
    }
    forall y | 0 <= y < |m.columns| ensures m.columns[y] != '(' && m.columns[y] != ')' {
      assert InClass(s[c + 1 + y], ColumnChar);
    }
  }

  /** The same for every match `AllMatches` reports. */
  lemma CapturesWellFormed(s: string, k: nat)
    requires k < |AllMatches(s)|
    ensures var m := AllMatches(s)[k];
      && m.name != [] && m.columns != []
      && (forall y :: 0 <= y < |m.name| ==> m.name[y] != '(' && !IsSpace(m.name[y]))
      && (forall y :: 0 <= y < |m.columns| ==> m.columns[y] != '(' && m.columns[y] != ')')
  {
    AllMatchesAreMatches(s, k);
    MatchAtCaptures(s, AllMatches(s)[k].start);
  }
}
