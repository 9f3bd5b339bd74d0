/** `printMenuContentDir` of subdivx_dl/utils.py: the `.srt` entries of the unpacked
    download are listed with numbers 1..k, and with two or more of them the user picks one by
    number; with fewer, the first of the first two entries that is a `.srt` is taken. */
module Menu {
  import opened Python
  import PyInt

  /** `name.endswith('.srt')`, spelt out character by character. */
  predicate IsSrt(name: string)
  {
    && |name| >= 4
    && name[|name| - 4] == '.' && name[|name| - 3] == 's' && name[|name| - 2] == 'r' && name[|name| - 1] == 't'
  }

  /** `IsSrt` is `endswith('.srt')`. */
  lemma IsSrtEndsWith(name: string)
    ensures IsSrt(name) <==> EndsWith(name, ".srt")
  {
    if |name| >= 4 {
      var tail := name[|name| - 4..];
      assert tail == ".srt" <==> tail[0] == '.' && tail[1] == 's' && tail[2] == 'r' && tail[3] == 't';
    }
  }

  /** Appending `.srt` gives a `.srt` name. */
  lemma SrtSuffix(stem: string)
    ensures IsSrt(stem + ".srt")
  {
    var n := |stem|;
    assert (stem + ".srt")[n] == '.' && (stem + ".srt")[n + 3] == 't';
  }

  /** The `.srt` entries of a listing, in listing order. */
  function SrtFiles(files: seq<string>): seq<string>
  {
    Filter(files, IsSrt)
  }

  /** One more entry adds itself to the `.srt` entries exactly when it is one. */
  lemma SrtFilesSnoc(files: seq<string>, x: nat)
    requires x < |files|
    ensures SrtFiles(files[..x + 1]) == SrtFiles(files[..x]) + if IsSrt(files[x]) then [files[x]] else []
  {
    assert files[..x + 1] == files[..x] + [files[x]];
    FilterAppend(files[..x], [files[x]], IsSrt);
    assert [files[x]][1..] == [];
  }

  /** A table row: the number shown and the file name. */
  datatype Row = Row(number: nat, name: string)

  const NameHeader: string := "File name"

  /** The loop that numbers the `.srt` entries. */
  method ListSrt(files: seq<string>) returns (rows: seq<Row>)
    ensures |rows| == |SrtFiles(files)|
    ensures forall i :: 0 <= i < |rows| ==> rows[i] == Row(i + 1, SrtFiles(files)[i])
  {
    rows := [];
    var index := 1;
    var x := 0;
    while x < |files|
      invariant x <= |files| && index == |rows| + 1
      invariant |rows| == |SrtFiles(files[..x])|
      invariant forall i :: 0 <= i < |rows| ==> rows[i] == Row(i + 1, SrtFiles(files[..x])[i])
    {
      SrtFilesSnoc(files, x);
      if IsSrt(files[x]) {
        rows := rows + [Row(index, files[x])];
        index := index + 1;
      }
      x := x + 1;
    }
    assert files[..x] == files;
  }

  /** The second column of `header`: the heading, then the file names. */
  function NameColumn(rows: seq<Row>): (c: seq<string>)
    ensures |c| == |rows| + 1 && c[0] == NameHeader
    ensures forall i :: 0 <= i < |rows| ==> c[i + 1] == rows[i].name
  {
    [NameHeader] + seq(|rows|, i requires 0 <= i < |rows| => rows[i].name)
  }

  /** What one line typed at the `Selection:` prompt leads to. */
  datatype Reply = Reprompt(message: string) | Quit | Choose(name: string)

  const NotNumber: string := "Input only numbers"
  const NotValid: string := "Input valid numbers"
  const NotPositive: string := "Input only positive numbers"

  /** One pass of the prompt loop: `int(line) - 1`, then `header[selection + 1][1]`, then the
      sign checks. */
  function MenuStep(rows: seq<Row>, line: string): (r: Reply)
    ensures r == Reprompt(NotNumber) <==> PyInt.Int(line).None?
    ensures r == Reprompt(NotValid) <==>
      PyInt.Int(line).Some? && (PyInt.Int(line).value > |rows| || PyInt.Int(line).value < -(|rows| + 1))
    ensures r == Reprompt(NotPositive) <==> PyInt.Int(line).Some? && -(|rows| + 1) <= PyInt.Int(line).value < 0
    ensures r == Quit <==> PyInt.Int(line) == Some(0)
    ensures r.Choose? <==> PyInt.Int(line).Some? && 1 <= PyInt.Int(line).value <= |rows|
    ensures r.Choose? ==> r.name == rows[PyInt.Int(line).value - 1].name
  {
    match PyInt.Int(line)
    case None => Reprompt(NotNumber)
    case Some(n) =>
      var selection := n - 1;
      match Index(NameColumn(rows), selection + 1)
      case None => Reprompt(NotValid)
      case Some(fileName) =>
        if selection < -1 then Reprompt(NotPositive)
        else if selection == -1 then Quit
        else Choose(fileName)
  }

  /** What `printMenuContentDir` ends with. */
  datatype Outcome =
    | Picked(name: string)   // the file name returned
    | Exited                 // input 0: the temporary directory is removed and the process exits
    | InputEnded             // `input()` raises `EOFError` once the lines run out
    | ListingTooShort        // `files[x]` raises `IndexError` in the fallback
    | NothingPicked          // the fallback loop ends and the function returns `None`

  /** The `while(True)` prompt loop over the lines the user types. */
  method Prompt(rows: seq<Row>, lines: seq<string>) returns (r: Outcome, used: nat)
    ensures used <= |lines|
    ensures forall i :: 0 <= i < used ==> MenuStep(rows, lines[i]).Reprompt?
    ensures used == |lines| ==> r == InputEnded
    ensures used < |lines| ==>
      || (MenuStep(rows, lines[used]) == Quit && r == Exited)
      || (r.Picked? && MenuStep(rows, lines[used]) == Choose(r.name))
  {
    used := 0;
    while true
      invariant used <= |lines|
      invariant forall i :: 0 <= i < used ==> MenuStep(rows, lines[i]).Reprompt?
      decreases |lines| - used
    {
      if used == |lines| {
        return InputEnded, used;
      }
      match MenuStep(rows, lines[used])
      case Reprompt(_) =>
        used := used + 1;
      case Quit =>
        return Exited, used;
      case Choose(name) =>
        return Picked(name), used;
    }
  }

  /** `for x in range(2)`: the first of `files[0]` and `files[1]` that is a `.srt`. */
  method Fallback(files: seq<string>) returns (r: Outcome)
    ensures |files| >= 1 && IsSrt(files[0]) ==> r == Picked(files[0])
    ensures |files| >= 2 && !IsSrt(files[0]) && IsSrt(files[1]) ==> r == Picked(files[1])
    ensures |files| >= 2 && !IsSrt(files[0]) && !IsSrt(files[1]) ==> r == NothingPicked
    ensures (|files| == 0 || (|files| == 1 && !IsSrt(files[0]))) ==> r == ListingTooShort
  {
    for x := 0 to 2
      invariant x <= |files| && forall i :: 0 <= i < x ==> !IsSrt(files[i])
    {
      if x >= |files| {
        return ListingTooShort;
      }
      if IsSrt(files[x]) {
        return Picked(files[x]);
      }
    }
    return NothingPicked;
  }

  /** `printMenuContentDir` over a directory listing and the lines typed at the prompt. */
  method PrintMenuContentDir(files: seq<string>, lines: seq<string>) returns (r: Outcome, used: nat)
    ensures |SrtFiles(files)| < 2 ==> used == 0
    ensures |SrtFiles(files)| < 2 && |files| >= 1 && IsSrt(files[0]) ==> r == Picked(files[0])
    ensures |SrtFiles(files)| < 2 && |files| >= 2 && !IsSrt(files[0]) ==>
      r == (if IsSrt(files[1]) then Picked(files[1]) else NothingPicked)
    ensures |SrtFiles(files)| < 2 && (|files| == 0 || (|files| == 1 && !IsSrt(files[0]))) ==> r == ListingTooShort
    ensures |SrtFiles(files)| >= 2 ==>
      && used <= |lines|
      && (forall i :: 0 <= i < used ==> PyInt.Int(lines[i]).None? || PyInt.Int(lines[i]).value < 0
                                         || PyInt.Int(lines[i]).value > |SrtFiles(files)|)
      && (used == |lines| ==> r == InputEnded)
      && (used < |lines| ==>
          || (PyInt.Int(lines[used]) == Some(0) && r == Exited)
          || (PyInt.Int(lines[used]).Some? && 1 <= PyInt.Int(lines[used]).value <= |SrtFiles(files)|
              && r == Picked(SrtFiles(files)[PyInt.Int(lines[used]).value - 1])))
  {
    var rows := ListSrt(files);
    if |rows| + 1 > 2 {
      r, used := Prompt(rows, lines);
    } else {
      r := Fallback(files);
      used := 0;
    }
  }
}
