/** Where the unpacked subtitles go: `tvShowSubtitles` and `movieSubtitle` of
    subdivx_dl/utils.py, `renameFile` and `moveFiles` of src/utils.py. A directory listing is
    a sequence of names and each `os.rename` becomes a planned `Move`. */
module Renaming {
  import opened Python
  import PyInt
  import Matchers
  import opened Menu

  /** One `os.rename`: a name in the download directory and its name in the destination. */
  datatype Move = Move(source: string, target: string)

  /** `<show> - S<season>E<episode>.srt`: the name `tvShowSubtitles` builds from the groups. */
  function EpisodeFile(serie: string, season: string, episode: string): (f: string)
    ensures IsSrt(f)
  {
    var stem := serie + " - " + ("S" + season) + ("E" + episode);
    SrtSuffix(stem);
    stem + ".srt"
  }

  /** `<show with '.' as ' '> - S<season>E<episode>.srt` when the season pattern matches the
      file name. */
  function EpisodeName(name: string): (r: Option<string>)
    ensures r.Some? ==> IsSrt(r.value)
  {
    match Matchers.SearchEpisode(name)
    case None => None
    case Some(e) => Some(EpisodeFile(ReplaceChar(name[e.start..e.sep], '.', ' '), e.season, e.episode))
  }

  /** A file name gets an episode name exactly when `[.\s][sS]\d{1,2}[eE]\d{1,3}` occurs
      in it. */
  lemma EpisodeNameNone(name: string)
    ensures EpisodeName(name).None? <==>
      forall p, season, episode :: 0 <= p <= |name| ==> !Matchers.TailLayout(name, p, season, episode)
  {
    Matchers.SearchEpisodeNoTail(name);
  }

  /** The destination name `tvShowSubtitles` gives a `.srt` entry, for a matcher `rename`
      (`EpisodeName` in `tvShowSubtitles`). */
  function SeasonTarget(name: string, noRename: bool, rename: string -> Option<string>): string
  {
    if noRename then name
    else match rename(name)
      case None => name
      case Some(renamed) => renamed
  }

  /** The body of the `tvShowSubtitles` loop for one `.srt` entry: the new name if renaming
      is on and the matcher gives one, else the entry's own name. */
  method SeasonMove(name: string, noRename: bool, rename: string -> Option<string>) returns (m: Move)
    ensures m == Move(name, SeasonTarget(name, noRename, rename))
    ensures noRename || rename(name).None? ==> m.target == name
    ensures !noRename && rename(name).Some? ==> m.target == rename(name).value
  {
    if !noRename {
      var result := rename(name);
      if result.None? {
        m := Move(name, name);
      } else {
        m := Move(name, result.value);
      }
    } else {
      m := Move(name, name);
    }
  }

  /** The `tvShowSubtitles` loop for a matcher `rename`: every `.srt` entry, and nothing
      else, is moved, in listing order, to its `SeasonTarget`. */
  method TvShowSubtitlesBy(files: seq<string>, noRename: bool, rename: string -> Option<string>) returns (plan: seq<Move>)
    ensures |plan| == |SrtFiles(files)|
    ensures forall i :: 0 <= i < |plan| ==> plan[i] == Move(SrtFiles(files)[i], SeasonTarget(SrtFiles(files)[i], noRename, rename))
  {
    plan := [];
    var index := 0;
    ghost var seen: seq<string> := [];
    while index < |files|
      invariant index <= |files| && seen == SrtFiles(files[..index]) && |plan| == |seen|
      invariant forall i :: 0 <= i < |plan| ==> plan[i] == Move(seen[i], SeasonTarget(seen[i], noRename, rename))
    {
      SrtFilesSnoc(files, index);
      var name := files[index];
      if IsSrt(name) {
        var m := SeasonMove(name, noRename, rename);
        plan := plan + [m];
        seen := seen + [name];
      }
      index := index + 1;
    }
    assert files[..index] == files;
  }

  /** `tvShowSubtitles`: every `.srt` entry, and nothing else, is moved, in listing order,
      to its `SeasonTarget` under `EpisodeName`; `SeasonPlan` says what that target is. */
  method TvShowSubtitles(files: seq<string>, noRename: bool) returns (plan: seq<Move>)
    ensures |plan| == |SrtFiles(files)|
    ensures forall i :: 0 <= i < |plan| ==>
      plan[i] == Move(SrtFiles(files)[i], SeasonTarget(SrtFiles(files)[i], noRename, EpisodeName))
  {
    plan := TvShowSubtitlesBy(files, noRename, EpisodeName);
  }

  /** In a plan that gives each name its `SeasonTarget`, a name gets its episode name
      unless renaming is off or the pattern does not match, and then keeps its own name; a
      `.srt` name stays a `.srt` name. */
  lemma SeasonPlan(plan: seq<Move>, names: seq<string>, noRename: bool)
    requires |plan| == |names|
    requires forall i :: 0 <= i < |plan| ==> plan[i] == Move(names[i], SeasonTarget(names[i], noRename, EpisodeName))
    ensures forall i :: 0 <= i < |plan| ==> plan[i].source == names[i]
    ensures forall i :: 0 <= i < |plan| ==> IsSrt(names[i]) ==> IsSrt(plan[i].target)
    ensures forall i :: 0 <= i < |plan| ==> noRename ==> plan[i].target == plan[i].source
    ensures forall i :: 0 <= i < |plan| ==> EpisodeName(plan[i].source).None? ==> plan[i].target == plan[i].source
    ensures forall i :: 0 <= i < |plan| ==> !noRename && EpisodeName(plan[i].source).Some? ==>
      plan[i].target == EpisodeName(plan[i].source).value
  {
  }

  /** `movieSubtitle`: the file picked from the menu becomes `<SEARCH>.srt`, or keeps its
      name under `--no-rename`. */
  function MovieSubtitle(picked: string, search: string, noRename: bool): (m: Move)
    ensures m.source == picked
    ensures noRename ==> m.target == picked
    ensures !noRename ==> IsSrt(m.target) && |m.target| == |search| + 4 && m.target[..|search|] == search
  {
    SrtSuffix(search);
    if !noRename then Move(picked, search + ".srt") else Move(picked, picked)
  }

  /** How `movieSubtitle` ends. */
  datatype MovieResult =
    | Moved(move: Move)          // the picked file is renamed
    | MenuEnded(menu: Outcome)   // the menu exited the process or raised before a file was picked
    | PickedNone                 // the menu returned `None` and `os.path.join` raises `TypeError`

  /** `movieSubtitle` after `printMenuContentDir` has ended with `picked`. */
  function MovieOutcome(picked: Outcome, search: string, noRename: bool): (r: MovieResult)
    ensures r.Moved? <==> picked.Picked?
    ensures picked.Picked? ==> r.move == MovieSubtitle(picked.name, search, noRename)
    ensures r == PickedNone <==> picked == NothingPicked
    ensures r.MenuEnded? <==> picked in {Exited, InputEnded, ListingTooShort}
    ensures r.MenuEnded? ==> r.menu == picked
  {
    match picked
    case Picked(name) => Moved(MovieSubtitle(name, search, noRename))
    case NothingPicked => PickedNone
    case _ => MenuEnded(picked)
  }

  /** `movieSubtitle` over a directory listing and the lines typed at the prompt: the
      menu's pick, then its move. */
  method MovieSubtitleRun(files: seq<string>, lines: seq<string>, search: string, noRename: bool)
    returns (r: MovieResult, used: nat)
    ensures |SrtFiles(files)| < 2 ==> used == 0
    ensures |SrtFiles(files)| < 2 && |files| >= 1 && IsSrt(files[0]) ==>
      r == Moved(MovieSubtitle(files[0], search, noRename))
    ensures |SrtFiles(files)| < 2 && |files| >= 2 && !IsSrt(files[0]) ==>
      r == (if IsSrt(files[1]) then Moved(MovieSubtitle(files[1], search, noRename)) else PickedNone)
    ensures |SrtFiles(files)| < 2 && (|files| == 0 || (|files| == 1 && !IsSrt(files[0]))) ==>
      r == MenuEnded(ListingTooShort)
    ensures |SrtFiles(files)| >= 2 ==>
      && used <= |lines|
      && (used == |lines| ==> r == MenuEnded(InputEnded))
      && (used < |lines| ==>
          || (PyInt.Int(lines[used]) == Some(0) && r == MenuEnded(Exited))
          || (PyInt.Int(lines[used]).Some? && 1 <= PyInt.Int(lines[used]).value <= |SrtFiles(files)|
              && r == Moved(MovieSubtitle(SrtFiles(files)[PyInt.Int(lines[used]).value - 1], search, noRename))))
  {
    var picked;
    picked, used := PrintMenuContentDir(files, lines);
    r := MovieOutcome(picked, search, noRename);
  }

  /** A listing with one `.srt` entry, in third place, leaves the fallback with nothing. */
  lemma PickedNoneListing()
    ensures var files := ["a.zip", "b.txt", "x.srt"];
      |SrtFiles(files)| == 1 && !IsSrt(files[0]) && !IsSrt(files[1])
  {
    var files := ["a.zip", "b.txt", "x.srt"];
    SrtFilesSnoc(files, 0);
    SrtFilesSnoc(files, 1);
    SrtFilesSnoc(files, 2);
    assert files[..0] == [] && files[..3] == files;
  }

  /** The name `renameFile` gives the `.srt` entry with `count` earlier `.srt` entries. */
  function VersionedName(newName: string, count: nat): string
  {
    if count == 0 then newName + ".srt" else newName + "-V" + PyInt.Str(count) + ".srt"
  }

  /** Different counts give different names. */
  lemma VersionedNamesDistinct(newName: string, j: nat, k: nat)
    requires j != k
    ensures VersionedName(newName, j) != VersionedName(newName, k)
  {
    if j != 0 && k != 0 {
      var a, b := VersionedName(newName, j), VersionedName(newName, k);
      if a == b {
        assert PyInt.Str(j) == a[|newName| + 2..|a| - 4];
        assert PyInt.Str(k) == b[|newName| + 2..|b| - 4];
        PyInt.StrInjective(j, k);
      }
    }
  }

  /** Every name `renameFile` produces is a `.srt` name that starts with the new name. */
  lemma VersionedNameShape(newName: string, k: nat)
    ensures IsSrt(VersionedName(newName, k))
    ensures VersionedName(newName, k)[..|newName|] == newName
  {
    if k == 0 {
      SrtSuffix(newName);
    } else {
      SrtSuffix(newName + "-V" + PyInt.Str(k));
    }
  }

  /** `renameFile` of src/utils.py: the `k`-th `.srt` entry (from 0) becomes
      `<newName>.srt` for `k = 0` and `<newName>-V<k>.srt` after that, so no two targets are
      the same. */
  method RenameFile(files: seq<string>, newName: string) returns (plan: seq<Move>)
    ensures |plan| == |SrtFiles(files)|
    ensures forall k :: 0 <= k < |plan| ==> plan[k] == Move(SrtFiles(files)[k], VersionedName(newName, k))
    ensures forall j, k :: 0 <= j < k < |plan| ==> plan[j].target != plan[k].target
  {
    plan := [];
    var index := 0;
    var count := 0;
    while index < |files|
      invariant index <= |files| && count == |plan|
      invariant |plan| == |SrtFiles(files[..index])|
      invariant forall k :: 0 <= k < |plan| ==> plan[k] == Move(SrtFiles(files[..index])[k], VersionedName(newName, k))
    {
      SrtFilesSnoc(files, index);
      if IsSrt(files[index]) {
        if count == 0 {
          plan := plan + [Move(files[index], newName + ".srt")];
          count := count + 1;
        } else {
          plan := plan + [Move(files[index], newName + "-V" + PyInt.Str(count) + ".srt")];
          count := count + 1;
        }
      }
      index := index + 1;
    }
    assert files[..index] == files;
    forall j, k | 0 <= j < k < |plan| ensures plan[j].target != plan[k].target {
      VersionedNamesDistinct(newName, j, k);
    }
  }

  /** The `new_name` that `moveFiles` holds after the given `.srt` entries: the new name of
      the last one `rename` gives one (for `moveFiles`, `rename` is `EpisodeName`). */
  function LastRenamed(names: seq<string>, rename: string -> Option<string>): Option<string>
  {
    if names == [] then None
    else match rename(names[|names| - 1])
      case Some(renamed) => Some(renamed)
      case None => LastRenamed(names[..|names| - 1], rename)
  }

  /** Once some entry matched, `new_name` is bound for good. */
  lemma {:induction false} LastRenamedBound(names: seq<string>, rename: string -> Option<string>, k: nat)
    requires k < |names| && rename(names[k]).Some?
    ensures LastRenamed(names, rename).Some?
    decreases |names|
  {
    if k < |names| - 1 {
      LastRenamedBound(names[..|names| - 1], rename, k);
    }
  }

  /** What `moveFiles` does with the given `.srt` entries, in order: each is moved to the
      current `new_name`, and the first entry met while `new_name` is still unbound raises
      `UnboundLocalError`, reported with that entry. */
  function MovePlan(names: seq<string>, rename: string -> Option<string>): Result<seq<Move>, string>
  {
    if names == [] then Ok([])
    else match MovePlan(names[..|names| - 1], rename)
      case Err(e) => Err(e)
      case Ok(plan) =>
        match LastRenamed(names, rename)
        case None => Err(names[|names| - 1])
        case Some(target) => Ok(plan + [Move(names[|names| - 1], target)])
  }

  /** The run fails exactly when the first entry does not match, and then at that entry. */
  lemma {:induction false} MovePlanErr(names: seq<string>, rename: string -> Option<string>)
    ensures MovePlan(names, rename).Err? <==> names != [] && rename(names[0]).None?
    ensures MovePlan(names, rename).Err? ==> MovePlan(names, rename).error == names[0]
    decreases |names|
  {
    if names != [] {
      var init := names[..|names| - 1];
      MovePlanErr(init, rename);
      if init == [] {
        assert names == [names[0]];
        assert LastRenamed(init, rename).None?;
      } else {
        assert init[0] == names[0];
        if rename(names[0]).Some? {
          LastRenamedBound(names, rename, 0);
        }
      }
    }
  }

  /** A run that goes through moves every entry, in order, to the new name of the last
      entry up to it that matched. */
  lemma {:induction false} MovePlanOk(names: seq<string>, rename: string -> Option<string>)
    requires MovePlan(names, rename).Ok?
    ensures |MovePlan(names, rename).value| == |names|
    ensures forall k :: 0 <= k < |names| ==>
      && MovePlan(names, rename).value[k].source == names[k]
      && LastRenamed(names[..k + 1], rename) == Some(MovePlan(names, rename).value[k].target)
    decreases |names|
  {
    if names != [] {
      var init := names[..|names| - 1];
      MovePlanOk(init, rename);
      var plan := MovePlan(names, rename).value;
      forall k | 0 <= k < |names|
        ensures plan[k].source == names[k] && LastRenamed(names[..k + 1], rename) == Some(plan[k].target)
      {
        if k < |init| {
          assert names[..k + 1] == init[..k + 1];
        } else {
          assert names[..k + 1] == names;
        }
      }
    }
  }

  /** Once the run has failed, later entries change nothing. */
  lemma {:induction false} MovePlanErrStays(names: seq<string>, rename: string -> Option<string>, i: nat)
    requires i <= |names| && MovePlan(names[..i], rename).Err?
    ensures MovePlan(names, rename) == MovePlan(names[..i], rename)
    decreases |names| - i
  {
    if i < |names| {
      assert names[..i + 1][..i] == names[..i];
      MovePlanErrStays(names, rename, i + 1);
    } else {
      assert names[..i] == names;
    }
  }

  /** One more entry binds `new_name` to its new name if it has one. */
  lemma LastRenamedSnoc(names: seq<string>, x: string, rename: string -> Option<string>)
    ensures LastRenamed(names + [x], rename) == if rename(x).Some? then rename(x) else LastRenamed(names, rename)
  {
    assert (names + [x])[..|names|] == names;
  }

  /** One more entry after a run that went through: moved to `new_name`, or the error. */
  lemma MovePlanSnoc(names: seq<string>, x: string, rename: string -> Option<string>)
    requires MovePlan(names, rename).Ok?
    ensures LastRenamed(names + [x], rename).None? ==> MovePlan(names + [x], rename) == Err(x)
    ensures LastRenamed(names + [x], rename).Some? ==>
      MovePlan(names + [x], rename) == Ok(MovePlan(names, rename).value + [Move(x, LastRenamed(names + [x], rename).value)])
  {
    assert (names + [x])[..|names|] == names;
  }

  /** An entry the pattern does not match, after one it does, gets the same target. */
  lemma MovePlanStale(first: string, second: string, rename: string -> Option<string>)
    requires rename(first).Some? && rename(second).None?
    ensures MovePlan([first, second], rename) == Ok([Move(first, rename(first).value), Move(second, rename(first).value)])
  {
    var a, b := Move(first, rename(first).value), Move(second, rename(first).value);
    var one: seq<string> := [first];
    assert [first, second][..1] == one && one[..0] == [];
    assert [] + [a] == [a] && [a] + [b] == [a, b];
    assert MovePlan(one[..0], rename) == Ok([]);
    assert MovePlan(one, rename) == Ok([a]);
    assert LastRenamed([first, second], rename) == rename(first);
  }

  /** The `.srt` entries of a prefix of the listing are a prefix of its `.srt` entries. */
  lemma SrtFilesPrefix(files: seq<string>, i: nat)
    requires i <= |files|
    ensures |SrtFiles(files[..i])| <= |SrtFiles(files)|
    ensures SrtFiles(files)[..|SrtFiles(files[..i])|] == SrtFiles(files[..i])
  {
    assert files == files[..i] + files[i..];
    FilterAppend(files[..i], files[i..], IsSrt);
  }

  /** The `moveFiles` loop for a matcher `rename`. A `.srt` entry that `rename` gives no
      new name is still moved, to the new name of the last match before it; if there has
      been none, `new_name` is unbound and the loop stops at that entry. */
  method MoveFilesBy(files: seq<string>, rename: string -> Option<string>) returns (r: Result<seq<Move>, string>)
    ensures r == MovePlan(SrtFiles(files), rename)
  {
    var plan: seq<Move> := [];
    var newName: Option<string> := None;
    var index := 0;
    ghost var seen: seq<string> := [];
    while index < |files|
      invariant index <= |files| && seen == SrtFiles(files[..index])
      invariant MovePlan(seen, rename) == Ok(plan)
      invariant newName == LastRenamed(seen, rename)
    {
      SrtFilesSnoc(files, index);
      var name := files[index];
      if IsSrt(name) {
        LastRenamedSnoc(seen, name, rename);
        MovePlanSnoc(seen, name, rename);
        var result := rename(name);
        if result.Some? {
          newName := result;
        }
        seen := seen + [name];
        if newName.None? {
          SrtFilesPrefix(files, index + 1);
          MovePlanErrStays(SrtFiles(files), rename, |seen|);
          return Err(name);
        }
        plan := plan + [Move(name, newName.value)];
      }
      index := index + 1;
    }
    assert files[..index] == files;
    return Ok(plan);
  }

  /** `moveFiles` of src/utils.py: the loop above with the season pattern as matcher. */
  method MoveFiles(files: seq<string>) returns (r: Result<seq<Move>, string>)
    ensures r == MovePlan(SrtFiles(files), EpisodeName)
  {
    r := MoveFilesBy(files, EpisodeName);
  }

  /** A listing where `moveFiles` sends two files to the same name: `notes.srt` does not
      match, inherits the episode name of `Show.S01E01.srt`, and replaces it. */
  lemma MoveFilesStaleName()
    ensures SrtFiles(["Show.S01E01.srt", "notes.srt"]) == ["Show.S01E01.srt", "notes.srt"]
    ensures MovePlan(["Show.S01E01.srt", "notes.srt"], EpisodeName)
         == Ok([Move("Show.S01E01.srt", "Show - S01E01.srt"), Move("notes.srt", "Show - S01E01.srt")])
  {
    ExampleListing();
    EpisodeExample();
    NotesNoEpisode();
    MovePlanStale("Show.S01E01.srt", "notes.srt", EpisodeName);
  }

  lemma ExampleListing()
    ensures SrtFiles(["Show.S01E01.srt", "notes.srt"]) == ["Show.S01E01.srt", "notes.srt"]
  {
    assert IsSrt("Show.S01E01.srt") && IsSrt("notes.srt");
    FilterAppend(["Show.S01E01.srt"], ["notes.srt"], IsSrt);
  }

  /** On a one-line name the show part is everything before the first position at which
      the season pattern completes. */
  lemma EpisodeNameOneLine(name: string, p: nat, season: string, episode: string)
    requires forall m :: 0 <= m < |name| ==> name[m] != '\n'
    requires Matchers.TailLayout(name, p, season, episode)
    requires forall q, a, b :: 0 <= q < p ==> !Matchers.TailLayout(name, q, a, b)
    ensures EpisodeName(name) == Some(ReplaceChar(name[..p], '.', ' ') + " - " + ("S" + season) + ("E" + episode) + ".srt")
  {
    Matchers.TailAtComplete(name, p, season, episode);
    forall q | 0 <= q < p ensures Matchers.TailAt(name, q).None? {
      Matchers.TailAtNone(name, q);
    }
    Matchers.SearchEpisodeOneLine(name, p);
    assert name[0..p] == name[..p];
  }

  /** `<show>.S<season>E<episode>.srt`, for a show name with no `.` or white space in it,
      becomes `<show> - S<season>E<episode>.srt`. */
  lemma EpisodeNamePlain(show: string, season: string, episode: string)
    requires forall i :: 0 <= i < |show| ==> !Matchers.IsSeparator(show[i])
    requires 1 <= |season| <= 2 && AllDigits(season) && 1 <= |episode| <= 3 && AllDigits(episode)
    ensures EpisodeName(Matchers.PlainEpisode(show, season, episode))
         == Some(show + " - " + ("S" + season) + ("E" + episode) + ".srt")
  {
    var s := Matchers.PlainEpisode(show, season, episode);
    Matchers.PlainEpisodeLine(show, season, episode);
    Matchers.PlainEpisodeTail(show, season, episode);
    EpisodeNameOneLine(s, |show|, season, episode);
    assert s[..|show|] == show;
    assert ReplaceChar(show, '.', ' ') == show;
  }

  /** The name from the comment in the source, recomputed. */
  lemma EpisodeExample()
    ensures EpisodeName("Show.S01E01.srt") == Some("Show - S01E01.srt")
  {
    EpisodeNamePlain("Show", "01", "01");
    ExampleNames();
  }

  lemma ExampleNames()
    ensures Matchers.PlainEpisode("Show", "01", "01") == "Show.S01E01.srt"
    ensures "Show" + " - " + ("S" + "01") + ("E" + "01") + ".srt" == "Show - S01E01.srt"
  {
  }

  /** A name with no season number has no episode name. */
  lemma NotesNoEpisode()
    ensures EpisodeName("notes.srt").None?
  {
    Matchers.NoSeasonNumber("notes.srt");
  }
}
