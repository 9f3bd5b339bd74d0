/** Hand-written matchers for the fixed regular expressions of the scraper, each following
    Python's `re.search`: the leftmost start position that matches wins, greedy repeats take
    as much as they can and lazy ones as little. */
module Matchers {
  import opened Python

  /** End of the run of digits that starts at `i`. */
  function DigitRun(s: string, i: nat): (j: nat)
    requires i <= |s|
    ensures i <= j <= |s|
    ensures forall k :: i <= k < j ==> IsDigit(s[k])
    ensures j < |s| ==> !IsDigit(s[j])
    decreases |s| - i
  {
    if i < |s| && IsDigit(s[i]) then DigitRun(s, i + 1) else i
  }

  /** A run of digits from `i` to `k` that nothing extends ends the greedy run at `k`. */
  lemma {:induction false} DigitRunStops(s: string, i: nat, k: nat)
    requires i <= k <= |s|
    requires forall m :: i <= m < k ==> IsDigit(s[m])
    requires k < |s| ==> !IsDigit(s[k])
    ensures DigitRun(s, i) == k
    decreases k - i
  {
    if i < k {
      DigitRunStops(s, i + 1, k);
    }
  }

  /** A run of digits from `i` to `k` ends the greedy run at `k` or later. */
  lemma {:induction false} DigitRunReaches(s: string, i: nat, k: nat)
    requires i <= k <= |s|
    requires forall m :: i <= m < k ==> IsDigit(s[m])
    ensures DigitRun(s, i) >= k
    decreases k - i
  {
    if i < k {
      DigitRunReaches(s, i + 1, k);
    }
  }

  /** The first position in `[from, n)` at which `at` matches, with what it matched. */
  function FirstMatch<T>(from: nat, n: nat, at: nat -> Option<T>): (r: Option<(nat, T)>)
    ensures r.None? ==> forall i :: from <= i < n ==> at(i).None?
    ensures r.Some? ==> from <= r.value.0 < n && at(r.value.0) == Some(r.value.1)
    ensures r.Some? ==> forall i :: from <= i < r.value.0 ==> at(i).None?
    decreases n - from
  {
    if from >= n then None
    else
      match at(from)
      case Some(v) => Some((from, v))
      case None => FirstMatch(from + 1, n, at)
  }

  // ---------------------------------------------------------------------------------------
  // Three digit groups with a separator: `\d+/\d+/\d+` and `\d+\.\d+\.\d+`

  /** `s[i..j]` is `digits sep digits sep digits` with the separators at `p` and `q`. */
  ghost predicate TripleAt(s: string, i: nat, p: nat, q: nat, j: nat, sep: char)
  {
    i < p && p + 1 < q && q + 1 < j <= |s| && s[p] == sep && s[q] == sep
    && forall k :: i <= k < j && k != p && k != q ==> IsDigit(s[k])
  }

  /** `d` is `digits sep digits sep digits`, every group non-empty. */
  ghost predicate IsTriple(d: string, sep: char)
  {
    exists p: nat, q: nat :: TripleAt(d, 0, p, q, |d|, sep)
  }

  lemma TripleSlice(s: string, i: nat, j: nat, sep: char)
    requires i <= j <= |s|
    ensures IsTriple(s[i..j], sep) <==> exists p: nat, q: nat :: TripleAt(s, i, p, q, j, sep)
  {
    var d := s[i..j];
    if IsTriple(d, sep) {
      var p: nat, q: nat :| TripleAt(d, 0, p, q, |d|, sep);
      assert TripleAt(s, i, i + p, i + q, j, sep);
    }
    if exists p: nat, q: nat :: TripleAt(s, i, p, q, j, sep) {
      var p: nat, q: nat :| TripleAt(s, i, p, q, j, sep);
      assert TripleAt(d, 0, p - i, q - i, |d|, sep);
    }
  }

  /** Where a greedy match of the three groups starting at `i` ends. */
  function TripleEnd(s: string, i: nat, sep: char): Option<nat>
  {
    if i > |s| then None
    else
      var a := DigitRun(s, i);
      if a == i || a >= |s| || s[a] != sep then None
      else
        var b := DigitRun(s, a + 1);
        if b == a + 1 || b >= |s| || s[b] != sep then None
        else
          var c := DigitRun(s, b + 1);
          if c == b + 1 then None else Some(c)
  }

  /** What the matcher finds is three groups that no further digit continues. */
  lemma TripleEndSound(s: string, i: nat, sep: char)
    requires TripleEnd(s, i, sep).Some?
    ensures var e := TripleEnd(s, i, sep).value;
      i < e <= |s| && IsTriple(s[i..e], sep) && (e < |s| ==> !IsDigit(s[e]))
  {
    var a := DigitRun(s, i);
    var b := DigitRun(s, a + 1);
    var e := DigitRun(s, b + 1);
    assert TripleAt(s, i, a, b, e, sep);
    TripleSlice(s, i, e, sep);
  }

  /** The greedy digit runs of three groups laid out at `p` and `q` stop at the separators,
      and the last one reaches at least the end of the groups. */
  lemma TripleRuns(s: string, i: nat, p: nat, q: nat, j: nat, sep: char)
    requires !IsDigit(sep) && TripleAt(s, i, p, q, j, sep)
    ensures DigitRun(s, i) == p && DigitRun(s, p + 1) == q && DigitRun(s, q + 1) >= j
  {
    assert forall m :: i <= m < p ==> IsDigit(s[m]);
    DigitRunStops(s, i, p);
    assert forall m :: p + 1 <= m < q ==> IsDigit(s[m]);
    DigitRunStops(s, p + 1, q);
    assert forall m :: q + 1 <= m < j ==> IsDigit(s[m]);
    DigitRunReaches(s, q + 1, j);
  }

  /** On three groups laid out at `p` and `q`, the matcher ends where the last digit run
      ends. */
  lemma TripleEndAt(s: string, i: nat, p: nat, q: nat, j: nat, sep: char)
    requires !IsDigit(sep) && TripleAt(s, i, p, q, j, sep)
    ensures DigitRun(s, q + 1) >= j && TripleEnd(s, i, sep) == Some(DigitRun(s, q + 1))
  {
    TripleRuns(s, i, p, q, j, sep);
  }

  /** Wherever three groups start, the matcher finds them, and it ends exactly where they end
      when no digit follows. */
  lemma TripleEndComplete(s: string, i: nat, j: nat, sep: char)
    requires !IsDigit(sep)
    requires i <= j <= |s| && IsTriple(s[i..j], sep)
    ensures TripleEnd(s, i, sep).Some?
    ensures j < |s| && !IsDigit(s[j]) ==> TripleEnd(s, i, sep) == Some(j)
    ensures j == |s| ==> TripleEnd(s, i, sep) == Some(j)
  {
    TripleSlice(s, i, j, sep);
    var p: nat, q: nat :| TripleAt(s, i, p, q, j, sep);
    TripleEndAt(s, i, p, q, j, sep);
    if j == |s| || !IsDigit(s[j]) {
      assert forall m :: q + 1 <= m < j ==> IsDigit(s[m]);
      DigitRunStops(s, q + 1, j);
    }
  }

  // ---------------------------------------------------------------------------------------
  // `(\d+/\d+/\d+)`: the upload date in a data block

  /** `re.search('(\d+/\d+/\d+)', s)` as the span of the match. */
  function SearchDate(s: string): (r: Option<(nat, nat)>)
    ensures r.None? <==> forall i, j :: 0 <= i <= j <= |s| ==> !IsTriple(s[i..j], '/')
    ensures r.Some? ==> r.value.0 < r.value.1 <= |s| && IsTriple(s[r.value.0..r.value.1], '/')
    ensures r.Some? ==> r.value.1 < |s| ==> !IsDigit(s[r.value.1])
    ensures r.Some? ==> forall i, j :: 0 <= i < r.value.0 && i <= j <= |s| ==> !IsTriple(s[i..j], '/')
  {
    var at: nat -> Option<nat> := (i: nat) => TripleEnd(s, i, '/');
    assert forall i, j :: 0 <= i <= j <= |s| && IsTriple(s[i..j], '/') ==> at(i).Some? by {
      forall i, j | 0 <= i <= j <= |s| && IsTriple(s[i..j], '/') ensures at(i).Some? {
        TripleEndComplete(s, i, j, '/');
      }
    }
    match FirstMatch(0, |s| + 1, at)
    case None => None
    case Some((i, e)) =>
      TripleEndSound(s, i, '/');
      Some((i, e))
  }

  // ---------------------------------------------------------------------------------------
  // `\d+(?:,\d+)?`: the download count in a data block

  /** `d` is a run of digits, optionally followed by a comma and a second run. */
  ghost predicate IsCount(d: string)
  {
    || (d != "" && AllDigits(d))
    || exists p :: 0 < p && p + 1 < |d| && d[p] == ','
         && forall k :: 0 <= k < |d| && k != p ==> IsDigit(d[k])
  }

  /** Where a greedy match of `\d+(?:,\d+)?` starting at `i` ends. */
  function CountEnd(s: string, i: nat): Option<nat>
  {
    if i < |s| && IsDigit(s[i]) then
      var j := DigitRun(s, i);
      if j + 1 < |s| && s[j] == ',' && IsDigit(s[j + 1]) then Some(DigitRun(s, j + 1)) else Some(j)
    else None
  }

  /** The greedy match at a digit is a count that no digit continues, and it takes the comma
      group whenever one follows. */
  lemma CountEndSound(s: string, i: nat)
    requires CountEnd(s, i).Some?
    ensures var e := CountEnd(s, i).value;
      i < e <= |s| && IsCount(s[i..e]) && (e < |s| ==> !IsDigit(s[e]))
      && (',' !in s[i..e] ==> !(e + 1 < |s| && s[e] == ',' && IsDigit(s[e + 1])))
  {
    var j := DigitRun(s, i);
    var e := CountEnd(s, i).value;
    var d := s[i..e];
    if e == j {
      assert d != "" && AllDigits(d);
    } else {
      var p := j - i;
      assert d[p] == ',' && forall k :: 0 <= k < |d| && k != p ==> IsDigit(d[k]);
      assert ',' in d;
    }
  }

  /** `re.search('\d+(?:,\d+)?', s)` as the span of the match: it starts at the first digit
      and takes a comma group when one follows. */
  function SearchCount(s: string): (r: Option<(nat, nat)>)
    ensures r.None? <==> forall i :: 0 <= i < |s| ==> !IsDigit(s[i])
    ensures r.Some? ==> r.value.0 < r.value.1 <= |s| && IsCount(s[r.value.0..r.value.1])
    ensures r.Some? ==> forall i :: 0 <= i < r.value.0 ==> !IsDigit(s[i])
    ensures r.Some? ==> r.value.1 < |s| ==> !IsDigit(s[r.value.1])
    ensures r.Some? ==> ',' !in s[r.value.0..r.value.1] ==>
      !(r.value.1 + 1 < |s| && s[r.value.1] == ',' && IsDigit(s[r.value.1 + 1]))
  {
    var at: nat -> Option<nat> := (i: nat) => CountEnd(s, i);
    assert forall i :: 0 <= i < |s| && IsDigit(s[i]) ==> at(i).Some?;
    match FirstMatch(0, |s|, at)
    case None => None
    case Some((i, e)) =>
      assert forall k :: 0 <= k < i ==> !IsDigit(s[k]) by {
        forall k | 0 <= k < i ensures !IsDigit(s[k]) { assert at(k).None?; }
      }
      CountEndSound(s, i);
      Some((i, e))
  }

  // ---------------------------------------------------------------------------------------
  // `__version__ = '(\d+\.\d+\.\d+)'`: the version declared in a module's text. The matcher
  // is written for any literal text `key` before the group, here `__version__ = '`.

  const VersionPrefix: string := "__version__ = '"

  /** `s[i..j]` is a whole declaration: `key`, then `<d>.<d>.<d>`, then `'`. */
  ghost predicate DeclSpan(s: string, i: nat, j: nat, key: string)
  {
    && i + |key| + 1 < j <= |s|
    && s[i..i + |key|] == key
    && s[j - 1] == '\''
    && IsTriple(s[i + |key|..j - 1], '.')
  }

  /** End of the captured group when a declaration starts at `i`. */
  function DeclAt(s: string, i: nat, key: string): Option<nat>
  {
    var g := i + |key|;
    if g <= |s| && s[i..g] == key then
      match TripleEnd(s, g, '.')
      case Some(e) => if e < |s| && s[e] == '\'' then Some(e) else None
      case None => None
    else None
  }

  lemma DeclAtComplete(s: string, i: nat, j: nat, key: string)
    requires DeclSpan(s, i, j, key)
    ensures DeclAt(s, i, key) == Some(j - 1)
  {
    TripleEndComplete(s, i + |key|, j - 1, '.');
  }

  lemma DeclAtSound(s: string, i: nat, key: string)
    requires DeclAt(s, i, key).Some?
    ensures DeclSpan(s, i, DeclAt(s, i, key).value + 1, key)
  {
    TripleEndSound(s, i + |key|, '.');
  }

  /** `re.search(...)`, as the first position where `DeclAt` finds a declaration and the
      end of its group. */
  function SearchDecl(s: string, key: string): (r: Option<(nat, nat)>)
    ensures r.None? ==> forall i :: 0 <= i <= |s| ==> DeclAt(s, i, key).None?
    ensures r.Some? ==> r.value.0 <= |s| && DeclAt(s, r.value.0, key) == Some(r.value.1)
    ensures r.Some? ==> forall i :: 0 <= i < r.value.0 ==> DeclAt(s, i, key).None?
  {
    var at: nat -> Option<nat> := (i: nat) => DeclAt(s, i, key);
    var r := FirstMatch(0, |s| + 1, at);
    assert forall i: nat :: at(i) == DeclAt(s, i, key);
    r
  }

  /** No declaration starts where `DeclAt` finds none. */
  lemma NoDeclBefore(s: string, n: nat, key: string)
    requires forall i :: 0 <= i < n ==> DeclAt(s, i, key).None?
    ensures forall i, j :: 0 <= i < n && i <= j <= |s| ==> !DeclSpan(s, i, j, key)
  {
    forall i, j | 0 <= i < n && i <= j <= |s| && DeclSpan(s, i, j, key) ensures false {
      DeclAtComplete(s, i, j, key);
    }
  }

  /** The search finds nothing exactly when no substring is a declaration, and otherwise
      the leftmost declaration, with the end of its group. */
  lemma SearchDeclSpec(s: string, key: string)
    ensures SearchDecl(s, key).None? <==> forall i, j :: 0 <= i <= j <= |s| ==> !DeclSpan(s, i, j, key)
    ensures SearchDecl(s, key).Some? ==> DeclSpan(s, SearchDecl(s, key).value.0, SearchDecl(s, key).value.1 + 1, key)
    ensures SearchDecl(s, key).Some? ==>
      forall i, j :: 0 <= i < SearchDecl(s, key).value.0 && i <= j <= |s| ==> !DeclSpan(s, i, j, key)
  {
    match SearchDecl(s, key)
    case None =>
      NoDeclBefore(s, |s| + 1, key);
    case Some((i, e)) =>
      DeclAtSound(s, i, key);
      NoDeclBefore(s, i, key);
  }

  /** `v` is the version of a declaration that starts at `i`, and no declaration starts
      earlier. */
  ghost predicate FirstDeclAt(s: string, i: nat, v: string, key: string)
  {
    && DeclSpan(s, i, i + |key| + |v| + 1, key)
    && s[i + |key|..i + |key| + |v|] == v
    && forall b, j :: 0 <= b < i && b <= j <= |s| ==> !DeclSpan(s, b, j, key)
  }

  /** The group `re.search` captures is a well-formed version, that of the first
      declaration. */
  lemma SearchDeclGroup(s: string, key: string)
    requires SearchDecl(s, key).Some?
    ensures var (i, e) := SearchDecl(s, key).value;
      && i + |key| <= e
      && FirstDeclAt(s, i, s[i + |key|..e], key)
      && IsTriple(s[i + |key|..e], '.')
  {
    SearchDeclSpec(s, key);
    var (i, e) := SearchDecl(s, key).value;
    var v := s[i + |key|..e];
    assert i + |key| + |v| + 1 == e + 1;
    assert DeclSpan(s, i, e + 1, key);
  }

  /** A text that is exactly one declaration is found from its start, with its whole version
      as the group. */
  lemma SearchDeclOwn(v: string, key: string)
    requires IsTriple(v, '.')
    ensures SearchDecl(key + v + "'", key) == Some((0 as nat, (|key| + |v|) as nat))
  {
    var s := key + v + "'";
    DeclOwnAt(v, key);
    if SearchDecl(s, key).None? {
      assert false;
    }
  }

  /** A lone declaration starts at 0, with its group ending before the closing quote. */
  lemma DeclOwnAt(v: string, key: string)
    requires IsTriple(v, '.')
    ensures DeclAt(key + v + "'", 0, key) == Some(|key| + |v|)
  {
    var s := key + v + "'";
    var n := |key|;
    assert s[0..n] == key && s[n..|s| - 1] == v;
    assert DeclSpan(s, 0, |s|, key);
    DeclAtComplete(s, 0, |s|, key);
  }

  // ---------------------------------------------------------------------------------------
  // `(.*?)[.\s][sS](\d{1,2})[eE](\d{1,3}).*`: a season and episode in a file name

  /** The three groups of a match, with the span of the first: `show` is `s[start..sep]`. */
  datatype Episode = Episode(start: nat, sep: nat, season: string, episode: string)

  predicate IsSeparator(c: char)
  {
    c == '.' || IsSpace(c)
  }

  /** The part of the pattern after the lazy group, tried at position `p`: the separator,
      `s` or `S`, a digit run of length one or two followed by `e` or `E` (a longer run leaves
      no way to reach the `e`), then the first one to three digits of the next run. */
  function TailAt(s: string, p: nat): (r: Option<(string, string)>)
    ensures r.Some? ==> TailLayout(s, p, r.value.0, r.value.1)
  {
    if p + 1 < |s| && IsSeparator(s[p]) && (s[p + 1] == 's' || s[p + 1] == 'S') then
      var j := DigitRun(s, p + 2);
      if p + 2 < j <= p + 4 && j < |s| && (s[j] == 'e' || s[j] == 'E') then
        var k := DigitRun(s, j + 1);
        var end := if k > j + 4 then j + 4 else k;
        if k > j + 1 then
          TailShape(s, p, j, end);
          Some((s[p + 2..j], s[j + 1..end]))
        else None
      else None
    else None
  }

  /** `s` holds at `p` the separator, `s` or `S`, the season digits, `e` or `E` and the
      episode digits, and the episode digits are cut at three or at the end of their run. */
  ghost predicate TailLayout(s: string, p: nat, season: string, episode: string)
  {
    && 1 <= |season| <= 2 && 1 <= |episode| <= 3 && AllDigits(season) && AllDigits(episode)
    && p + 3 + |season| + |episode| <= |s|
    && IsSeparator(s[p]) && (s[p + 1] == 's' || s[p + 1] == 'S')
    && s[p + 2..p + 2 + |season|] == season
    && (s[p + 2 + |season|] == 'e' || s[p + 2 + |season|] == 'E')
    && s[p + 3 + |season|..p + 3 + |season| + |episode|] == episode
    && (|episode| < 3 && p + 3 + |season| + |episode| < |s| ==> !IsDigit(s[p + 3 + |season| + |episode|]))
  }

  /** The runs `TailAt` finds are laid out as `TailLayout` says. */
  lemma TailShape(s: string, p: nat, j: nat, end: nat)
    requires p + 1 < |s| && IsSeparator(s[p]) && (s[p + 1] == 's' || s[p + 1] == 'S')
    requires p + 2 < j <= p + 4 && j < |s| && (s[j] == 'e' || s[j] == 'E')
    requires j + 1 < end <= j + 4 && end <= |s|
    requires forall m :: p + 2 <= m < j ==> IsDigit(s[m])
    requires forall m :: j + 1 <= m < end ==> IsDigit(s[m])
    requires end < j + 4 && end < |s| ==> !IsDigit(s[end])
    ensures TailLayout(s, p, s[p + 2..j], s[j + 1..end])
  {
  }

  /** Every placement of the tail is found: where `s` holds the tail at `p` with groups
      `season` and `episode`, `TailAt` returns those groups. */
  lemma TailAtComplete(s: string, p: nat, season: string, episode: string)
    requires TailLayout(s, p, season, episode)
    ensures TailAt(s, p) == Some((season, episode))
  {
    var j := p + 2 + |season|;
    forall m | p + 2 <= m < j ensures IsDigit(s[m]) {
      assert s[m] == season[m - (p + 2)];
    }
    DigitRunStops(s, p + 2, j);
    var end := j + 1 + |episode|;
    forall m | j + 1 <= m < end ensures IsDigit(s[m]) {
      assert s[m] == episode[m - (j + 1)];
    }
    if |episode| < 3 {
      DigitRunStops(s, j + 1, end);
    } else {
      DigitRunReaches(s, j + 1, end);
    }
  }

  /** `TailAt` finds nothing at `p` exactly when the tail cannot be placed at `p`. */
  lemma TailAtNone(s: string, p: nat)
    ensures TailAt(s, p).None? <==> forall season, episode :: !TailLayout(s, p, season, episode)
  {
    if TailAt(s, p).None? {
      forall season, episode ensures !TailLayout(s, p, season, episode) {
        if TailLayout(s, p, season, episode) {
          TailAtComplete(s, p, season, episode);
        }
      }
    }
  }

  /** First `\n` at or after `st`, or the end: the lazy `.*?` cannot cross it. */
  function LineEnd(s: string, st: nat): (k: nat)
    requires st <= |s|
    ensures st <= k <= |s| && (k < |s| ==> s[k] == '\n')
    ensures forall m :: st <= m < k ==> s[m] != '\n'
    decreases |s| - st
  {
    if st == |s| || s[st] == '\n' then st else LineEnd(s, st + 1)
  }

  /** The match that starts at `st`: the shortest group `s[st..p]` after which the tail matches. */
  function LazyAt(s: string, st: nat): (r: Option<(nat, (string, string))>)
    ensures r.Some? ==> st <= r.value.0 <= |s| && TailAt(s, r.value.0) == Some(r.value.1)
    ensures r.Some? ==> forall m :: st <= m < r.value.0 ==> s[m] != '\n' && TailAt(s, m).None?
    ensures st <= |s| && r.None? ==> forall p :: st <= p <= LineEnd(s, st) ==> TailAt(s, p).None?
  {
    if st > |s| then None
    else
      var at: nat -> Option<(string, string)> := (p: nat) => TailAt(s, p);
      var e := LineEnd(s, st);
      var m := FirstMatch(st, e + 1, at);
      assert TailAt(s, st).Some? ==> at(st).Some?;
      if m.Some? then
        assert forall k :: st <= k < m.value.0 ==> TailAt(s, k).None? by {
          forall k | st <= k < m.value.0 ensures TailAt(s, k).None? { assert at(k).None?; }
        }
        assert at(m.value.0) == TailAt(s, m.value.0);
        m
      else
        assert forall p :: st <= p <= e ==> TailAt(s, p).None? by {
          forall p | st <= p <= e ensures TailAt(s, p).None? { assert at(p).None?; }
        }
        m
  }

  /** A tail at `p` is found by the lazy group that starts at `p`. */
  lemma LazyAtFinds(s: string)
    ensures forall p :: 0 <= p <= |s| && TailAt(s, p).Some? ==> LazyAt(s, p).Some?
  {
    forall p | 0 <= p <= |s| && TailAt(s, p).Some? ensures LazyAt(s, p).Some? {
      assert p <= LineEnd(s, p);
    }
  }

  /** `re.search(pattern, s)` with its three groups: the leftmost start at which the lazy
      group can be completed, and the match found from there. */
  function SearchEpisode(s: string): (r: Option<Episode>)
    ensures r.None? <==> forall st :: 0 <= st <= |s| ==> LazyAt(s, st).None?
    ensures r.Some? ==> r.value.start <= r.value.sep <= |s|
    ensures r.Some? ==> LazyAt(s, r.value.start) == Some((r.value.sep, (r.value.season, r.value.episode)))
    ensures r.Some? ==> forall b :: 0 <= b < r.value.start ==> LazyAt(s, b).None?
  {
    var at: nat -> Option<(nat, (string, string))> := (st: nat) => LazyAt(s, st);
    match FirstMatch(0, |s| + 1, at)
    case None =>
      assert forall st :: 0 <= st <= |s| ==> LazyAt(s, st).None? by {
        forall st | 0 <= st <= |s| ensures LazyAt(s, st).None? { assert at(st).None?; }
      }
      None
    case Some((st, (p, (season, episode)))) =>
      assert at(st) == LazyAt(s, st);
      assert forall b :: 0 <= b < st ==> LazyAt(s, b).None? by {
        forall b | 0 <= b < st ensures LazyAt(s, b).None? { assert at(b).None?; }
      }
      Some(Episode(st, p, season, episode))
  }

  /** There is no match exactly when no position completes the pattern's tail. */
  lemma SearchEpisodeNone(s: string)
    ensures SearchEpisode(s).None? <==> forall p :: 0 <= p <= |s| ==> TailAt(s, p).None?
  {
    LazyAtFinds(s);
    if SearchEpisode(s).None? {
      forall p | 0 <= p <= |s| ensures TailAt(s, p).None? {
        assert LazyAt(s, p).None?;
      }
    }
  }

  /** There is no match exactly when the tail `[.\s][sS](\d{1,2})[eE](\d{1,3})` occurs
      nowhere in `s`. */
  lemma SearchEpisodeNoTail(s: string)
    ensures SearchEpisode(s).None? <==>
      forall p, season, episode :: 0 <= p <= |s| ==> !TailLayout(s, p, season, episode)
  {
    SearchEpisodeNone(s);
    if SearchEpisode(s).None? {
      forall p, season, episode | 0 <= p <= |s| ensures !TailLayout(s, p, season, episode) {
        TailAtNone(s, p);
      }
    } else {
      var p :| 0 <= p <= |s| && TailAt(s, p).Some?;
      var (season, episode) := TailAt(s, p).value;
      assert TailLayout(s, p, season, episode);
    }
  }

  /** A match in terms of the pattern's tail: the group `s[start..sep]` stays on one line
      and is the shortest one after which the tail matches, and no earlier start reaches a
      tail on its line. */
  lemma SearchEpisodeTail(s: string)
    requires SearchEpisode(s).Some?
    ensures var e := SearchEpisode(s).value;
      && e.start <= e.sep <= |s|
      && TailAt(s, e.sep) == Some((e.season, e.episode))
      && (forall m :: e.start <= m < e.sep ==> s[m] != '\n' && TailAt(s, m).None?)
      && (forall st, p :: 0 <= st < e.start && st <= p <= LineEnd(s, st) ==> TailAt(s, p).None?)
  {
    var e := SearchEpisode(s).value;
    forall st, p | 0 <= st < e.start && st <= p <= LineEnd(s, st) ensures TailAt(s, p).None? {
      assert LazyAt(s, st).None?;
    }
  }

  /** A name in which no separator and `s`/`S` are followed by a digit has no match. */
  lemma NoSeasonNumber(s: string)
    requires forall p :: 0 <= p && p + 2 < |s| && IsSeparator(s[p]) && (s[p + 1] == 's' || s[p + 1] == 'S') ==>
      !IsDigit(s[p + 2])
    ensures SearchEpisode(s).None?
  {
    SearchEpisodeNone(s);
    forall p | 0 <= p <= |s| ensures TailAt(s, p).None? {
      if p + 2 < |s| {
        assert DigitRun(s, p + 2) == p + 2 || !IsSeparator(s[p]) || (s[p + 1] != 's' && s[p + 1] != 'S');
      }
    }
  }

  /** On a name without line breaks the match starts at 0 and the group runs up to the first
      position at which the tail matches. */
  lemma SearchEpisodeOneLine(s: string, p: nat)
    requires forall m :: 0 <= m < |s| ==> s[m] != '\n'
    requires p <= |s| && TailAt(s, p).Some?
    requires forall q :: 0 <= q < p ==> TailAt(s, q).None?
    ensures SearchEpisode(s) == Some(Episode(0, p, TailAt(s, p).value.0, TailAt(s, p).value.1))
  {
    SearchEpisodeNone(s);
    SearchEpisodeTail(s);
    var e := SearchEpisode(s).value;
    if e.start > 0 {
      assert false;
    }
    if e.sep < p {
      assert false;
    }
  }

  /** `<show>.S<season>E<episode>.srt`: the file name of an episode. */
  function PlainEpisode(show: string, season: string, episode: string): string
  {
    show + ".S" + season + "E" + episode + ".srt"
  }

  /** For a show name with no separator in it, the episode's file name is one line and the
      pattern's tail completes nowhere inside the show name. */
  lemma PlainEpisodeLine(show: string, season: string, episode: string)
    requires forall i :: 0 <= i < |show| ==> !IsSeparator(show[i])
    requires AllDigits(season) && AllDigits(episode)
    ensures var s := PlainEpisode(show, season, episode);
      && (forall m :: 0 <= m < |s| ==> s[m] != '\n')
      && (forall q, a, b :: 0 <= q < |show| ==> !TailLayout(s, q, a, b))
  {
    var s := PlainEpisode(show, season, episode);
    var p, j := |show|, |show| + 2 + |season|;
    var k := j + 1 + |episode|;
    forall q, a, b | 0 <= q < p ensures !TailLayout(s, q, a, b) {
      assert s[q] == show[q];
    }
    forall m | 0 <= m < |s| ensures s[m] != '\n' {
      if m < p {
        assert s[m] == show[m];
      } else if p + 2 <= m < j {
        assert s[m] == season[m - p - 2];
      } else if j + 1 <= m < k {
        assert s[m] == episode[m - j - 1];
      }
    }
  }

  /** Where the separators and the numbers sit in the episode's file name. */
  lemma PlainEpisodeLayout(show: string, season: string, episode: string)
    ensures var s, p, j := PlainEpisode(show, season, episode), |show|, |show| + 2 + |season|;
      && |s| == j + |episode| + 5
      && s[p] == '.' && s[p + 1] == 'S' && s[j] == 'E' && s[j + 1 + |episode|] == '.'
      && s[p + 2..j] == season && s[j + 1..j + 1 + |episode|] == episode
  {
  }

  /** Right after the show name the tail matches, with the two numbers as its groups. */
  lemma PlainEpisodeTail(show: string, season: string, episode: string)
    requires 1 <= |season| <= 2 && AllDigits(season) && 1 <= |episode| <= 3 && AllDigits(episode)
    ensures TailAt(PlainEpisode(show, season, episode), |show|) == Some((season, episode))
  {
    var s := PlainEpisode(show, season, episode);
    var p, j := |show|, |show| + 2 + |season|;
    var k := j + 1 + |episode|;
    PlainEpisodeLayout(show, season, episode);
    assert forall m :: p + 2 <= m < j ==> s[m] == s[p + 2..j][m - p - 2];
    assert forall m :: j + 1 <= m < k ==> s[m] == s[j + 1..k][m - j - 1];
    DigitRunStops(s, p + 2, j);
    DigitRunStops(s, j + 1, k);
  }
}
