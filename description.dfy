/** `printSelectDescription`: the first line of the chosen description is cut into rows of
    twelve words for display. subdivx_dl/utils.py and src/utils.py build a one-column table
    under a `Description` header; subdivx.py builds the bare list of rows. */
module Description {
  import opened Python

  /** `maxLengh`. With the test `count <= maxLengh`, eleven words gather in `line` and the
      twelfth closes the row. */
  const MaxLength: nat := 10
  const RowWords: nat := MaxLength + 2

  /** `" " + w1 + " " + w2 + ...`: how the loop strings words together. */
  function Spaced(ws: seq<string>): string
  {
    if ws == [] then "" else Spaced(ws[..|ws| - 1]) + " " + ws[|ws| - 1]
  }

  /** The rows joined back together. */
  function Concat(rows: seq<string>): string
  {
    if rows == [] then "" else rows[0] + Concat(rows[1..])
  }

  lemma {:induction false} SpacedAppend(a: seq<string>, b: seq<string>)
    ensures Spaced(a + b) == Spaced(a) + Spaced(b)
    decreases |b|
  {
    if b == [] {
      assert a + b == a;
    } else {
      assert (a + b)[..|a + b| - 1] == a + b[..|b| - 1];
      SpacedAppend(a, b[..|b| - 1]);
    }
  }

  lemma SpacedCons(w: string, ws: seq<string>)
    ensures Spaced([w] + ws) == " " + w + Spaced(ws)
  {
    SpacedAppend([w], ws);
    assert [w][..0] == [];
  }

  /** A word followed by nothing or by a space is what `WordLength` measures. */
  lemma {:induction false} WordLengthOfWord(w: string, rest: string)
    requires IsWord(w) && (rest == "" || IsSpace(rest[0]))
    ensures WordLength(w + rest) == |w|
    decreases |w|
  {
    if |w| > 1 {
      assert (w + rest)[1..] == w[1..] + rest;
      WordLengthOfWord(w[1..], rest);
    } else {
      assert (w + rest)[1..] == rest;
    }
  }

  /** Splitting the space-joined words gives the words back. */
  lemma {:induction false} SplitSpaced(ws: seq<string>)
    requires forall k :: 0 <= k < |ws| ==> IsWord(ws[k])
    ensures Split(Spaced(ws)) == ws
    decreases |ws|
  {
    if ws != [] {
      var w, rest := ws[0], Spaced(ws[1..]);
      SpacedCons(w, ws[1..]);
      assert ws == [w] + ws[1..];
      var s := " " + w + rest;
      assert Spaced(ws) == s;
      assert s[1..] == w + rest;
      if ws[1..] != [] {
        SpacedCons(ws[1], ws[2..]);
        assert ws[1..] == [ws[1]] + ws[2..];
      }
      WordLengthOfWord(w, rest);
      assert (w + rest)[..|w|] == w && (w + rest)[|w|..] == rest;
      SplitSpaced(ws[1..]);
    }
  }

  /** `" " + words[a] + " " + ... + " " + words[b - 1]`: `Spaced` over a range of positions,
      as the loop builds `line`. */
  function SpacedRange(words: seq<string>, a: nat, b: nat): string
    requires a <= b <= |words|
    decreases b - a
  {
    if a == b then "" else SpacedRange(words, a, b - 1) + " " + words[b - 1]
  }

  lemma {:induction false} SpacedRangeSlice(words: seq<string>, a: nat, b: nat)
    requires a <= b <= |words|
    ensures SpacedRange(words, a, b) == Spaced(words[a..b])
    decreases b - a
  {
    if a < b {
      SpacedRangeSlice(words, a, b - 1);
      assert words[a..b][..b - a - 1] == words[a..b - 1];
    }
  }

  lemma SpacedRangeDrop(words: seq<string>, a: nat)
    requires a <= |words|
    ensures SpacedRange(words, a, |words|) == Spaced(words[a..])
  {
    SpacedRangeSlice(words, a, |words|);
    assert words[a..|words|] == words[a..];
  }

  lemma {:induction false} SpacedRangeSplit(words: seq<string>, a: nat, b: nat, c: nat)
    requires a <= b <= c <= |words|
    ensures SpacedRange(words, a, c) == SpacedRange(words, a, b) + SpacedRange(words, b, c)
    decreases c - b
  {
    if b < c {
      SpacedRangeSplit(words, a, b, c - 1);
      var x, y, z := SpacedRange(words, a, b), SpacedRange(words, b, c - 1), " " + words[c - 1];
      assert x + y + z == x + (y + z);
    }
  }

  /** The rows cut from the words from `start` on: twelve to a row, and the remaining zero
      to eleven in a last row. */
  function WrapFrom(words: seq<string>, start: nat): seq<string>
    requires start <= |words|
    decreases |words| - start
  {
    if |words| - start < RowWords then [SpacedRange(words, start, |words|)]
    else [SpacedRange(words, start, start + RowWords)] + WrapFrom(words, start + RowWords)
  }

  /** `WrapFrom(words, s)` has one row per twelve words and one more. */
  lemma {:induction false} WrapFromCount(words: seq<string>, s: nat)
    requires s <= |words|
    ensures |WrapFrom(words, s)| >= 1
    ensures 12 * (|WrapFrom(words, s)| - 1) <= |words| - s < 12 * |WrapFrom(words, s)|
    decreases |words| - s
  {
    if |words| - s >= RowWords {
      WrapFromCount(words, s + RowWords);
    }
  }

  /** Row `k` of `WrapFrom(words, s)`, all but the last, holds the twelve words from
      `s + 12 k` on. */
  lemma {:induction false} WrapFromRows(words: seq<string>, s: nat)
    requires s <= |words|
    ensures 12 * (|WrapFrom(words, s)| - 1) <= |words| - s
    ensures forall k :: 0 <= k < |WrapFrom(words, s)| - 1 ==>
      WrapFrom(words, s)[k] == SpacedRange(words, s + 12 * k, s + 12 * k + 12)
    decreases |words| - s
  {
    WrapFromCount(words, s);
    if |words| - s >= RowWords {
      WrapFromRows(words, s + RowWords);
      var rows, rest := WrapFrom(words, s), WrapFrom(words, s + RowWords);
      forall k | 1 <= k < |rows| - 1
        ensures rows[k] == SpacedRange(words, s + 12 * k, s + 12 * k + 12)
      {
        assert rows[k] == rest[k - 1];
        assert s + 12 * k == s + RowWords + 12 * (k - 1);
      }
    }
  }

  /** The last row of `WrapFrom(words, s)` holds the remaining words. */
  lemma {:induction false} WrapFromLast(words: seq<string>, s: nat)
    requires s <= |words|
    ensures |WrapFrom(words, s)| >= 1 && s + 12 * (|WrapFrom(words, s)| - 1) <= |words|
    ensures var rows := WrapFrom(words, s);
      rows[|rows| - 1] == SpacedRange(words, s + 12 * (|rows| - 1), |words|)
    decreases |words| - s
  {
    WrapFromCount(words, s);
    if |words| - s >= RowWords {
      WrapFromLast(words, s + RowWords);
      WrapFromCount(words, s + RowWords);
      var rows, rest := WrapFrom(words, s), WrapFrom(words, s + RowWords);
      assert rows[|rows| - 1] == rest[|rest| - 1];
      assert s + 12 * (|rows| - 1) == s + RowWords + 12 * (|rest| - 1);
    }
  }

  /** The loop of `printSelectDescription` over the words of the first line. */
  method WrapWords(words: seq<string>) returns (rows: seq<string>)
    ensures rows == WrapFrom(words, 0)
  {
    rows := [];
    var line := "";
    var count := 0;
    ghost var start := 0;
    for i := 0 to |words|
      invariant count < RowWords && start + count == i
      invariant line == SpacedRange(words, start, i)
      invariant rows + WrapFrom(words, start) == WrapFrom(words, 0)
    {
      var word := words[i];
      if count <= MaxLength {
        line := line + " " + word;
        count := count + 1;
      } else {
        assert rows + WrapFrom(words, start) == rows + [line + " " + word] + WrapFrom(words, i + 1);
        rows := rows + [line + " " + word];
        line := "";
        count := 0;
        start := i + 1;
      }
    }
    rows := rows + [line];
  }

  lemma {:induction false} WrapFromConcat(words: seq<string>, s: nat)
    requires s <= |words|
    ensures Concat(WrapFrom(words, s)) == SpacedRange(words, s, |words|)
    decreases |words| - s
  {
    if |words| - s >= RowWords {
      WrapFromConcat(words, s + RowWords);
      SpacedRangeSplit(words, s, s + RowWords, |words|);
      assert WrapFrom(words, s)[1..] == WrapFrom(words, s + RowWords);
    }
  }

  /** The rows, concatenated, are the space-prefixed words of the line. */
  lemma WrapConcat(words: seq<string>)
    ensures Concat(WrapFrom(words, 0)) == Spaced(words)
  {
    WrapFromConcat(words, 0);
    SpacedRangeSlice(words, 0, |words|);
    assert words[0..|words|] == words;
  }

  /** Split back into words, a full row holds exactly its twelve words. */
  lemma WrapRowWords(words: seq<string>, s: nat, k: nat)
    requires s <= |words| && k + 1 < |WrapFrom(words, s)|
    requires forall i :: 0 <= i < |words| ==> IsWord(words[i])
    ensures s + 12 * k + 12 <= |words| && Split(WrapFrom(words, s)[k]) == words[s + 12 * k..s + 12 * k + 12]
  {
    WrapFromRows(words, s);
    var a := s + 12 * k;
    assert WrapFrom(words, s)[k] == SpacedRange(words, a, a + 12);
    SpacedRangeSlice(words, a, a + 12);
    SplitSpaced(words[a..a + 12]);
  }

  /** Split back into words, the last row holds the words left over, fewer than twelve. */
  lemma WrapLastWords(words: seq<string>, s: nat)
    requires s <= |words|
    requires forall i :: 0 <= i < |words| ==> IsWord(words[i])
    ensures |WrapFrom(words, s)| >= 1
    ensures var k := |WrapFrom(words, s)| - 1;
      && s + 12 * k <= |words|
      && Split(WrapFrom(words, s)[k]) == words[s + 12 * k..]
      && |words| - (s + 12 * k) < RowWords
  {
    WrapFromCount(words, s);
    WrapFromLast(words, s);
    var a := s + 12 * (|WrapFrom(words, s)| - 1);
    SpacedRangeDrop(words, a);
    SplitSpaced(words[a..]);
  }

  datatype DescriptionError =
    | NoSuchDescription   // `descriptionList[selection]` raises IndexError
    | EmptyDescription    // `''.splitlines()[0]` raises IndexError

  /** The words of the first line of `descriptionList[selection]`. */
  function SelectedWords(selection: int, descriptions: seq<string>): (r: Result<seq<string>, DescriptionError>)
    ensures r == Err(NoSuchDescription) <==> Index(descriptions, selection).None?
    ensures r == Err(EmptyDescription) <==> Index(descriptions, selection) == Some("")
    ensures r.Ok? ==> r.value == Split(FirstLine(Index(descriptions, selection).value).value)
  {
    match Index(descriptions, selection)
    case None => Err(NoSuchDescription)
    case Some(text) =>
      match FirstLine(text)
      case None => Err(EmptyDescription)
      case Some(line) => Ok(Split(line))
  }

  /** Each row as a table row of one cell. */
  function Cells(rows: seq<string>): (t: seq<seq<string>>)
    ensures |t| == |rows| && forall k :: 0 <= k < |rows| ==> t[k] == [rows[k]]
  {
    seq(|rows|, k requires 0 <= k < |rows| => [rows[k]])
  }

  /** The first cell of each table row, `""` for an empty one. */
  function Column(table: seq<seq<string>>): (c: seq<string>)
    ensures |c| == |table| && forall k :: 0 <= k < |table| && table[k] != [] ==> c[k] == table[k][0]
  {
    seq(|table|, k requires 0 <= k < |table| => if table[k] != [] then table[k][0] else "")
  }

  /** The one-column table whose first row is the header. */
  ghost predicate IsDescriptionTable(table: seq<seq<string>>, words: seq<string>)
  {
    && |table| >= 2 && table[0] == ["Description"]
    && (forall k :: 1 <= k < |table| ==> |table[k]| == 1)
    && Column(table[1..]) == WrapFrom(words, 0)
  }

  /** The header over the wrapped rows, one to a table row, is the description table. */
  lemma HeaderOverRows(rows: seq<string>, words: seq<string>)
    requires rows == WrapFrom(words, 0)
    ensures IsDescriptionTable([["Description"]] + Cells(rows), words)
  {
    WrapFromCount(words, 0);
    var table := [["Description"]] + Cells(rows);
    assert table[1..] == Cells(rows);
    assert Column(Cells(rows)) == rows;
  }

  /** `printSelectDescription` of subdivx_dl/utils.py and src/utils.py: the table handed to
      `tabulate`. */
  method DescriptionTable(selection: int, descriptions: seq<string>)
    returns (r: Result<seq<seq<string>>, DescriptionError>)
    ensures r.Err? <==> SelectedWords(selection, descriptions).Err?
    ensures r.Err? ==> r.error == SelectedWords(selection, descriptions).error
    ensures r.Ok? ==> IsDescriptionTable(r.value, SelectedWords(selection, descriptions).value)
  {
    var words := SelectedWords(selection, descriptions);
    if words.Err? {
      return Err(words.error);
    }
    var rows := WrapWords(words.value);
    HeaderOverRows(rows, words.value);
    r := Ok([["Description"]] + Cells(rows));
  }

  /** `printSelectDescription` of subdivx.py: the rows, with no header. */
  method DescriptionRows(selection: int, descriptions: seq<string>)
    returns (r: Result<seq<string>, DescriptionError>)
    ensures r.Err? <==> SelectedWords(selection, descriptions).Err?
    ensures r.Err? ==> r.error == SelectedWords(selection, descriptions).error
    ensures r.Ok? ==> r.value == WrapFrom(SelectedWords(selection, descriptions).value, 0)
  {
    var words := SelectedWords(selection, descriptions);
    if words.Err? {
      return Err(words.error);
    }
    var rows := WrapWords(words.value);
    r := Ok(rows);
  }
}
