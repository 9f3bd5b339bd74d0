/** `getDataPage`: once the search page has been reduced to the text of four kinds of element
    (the detail divs, the title links, the data blocks and the user links), six lists are
    built from them. subdivx_dl/utils.py and src/utils.py run the same code and differ only in
    their ban list; subdivx.py is the first version of it. */
module PageData {
  import opened Python
  import Matchers

  /** A title link: its text and its `href` attribute, which may be missing. */
  datatype Link = Link(text: string, href: Option<string>)

  /** `get_text()` of every element each `find_all` returned, in page order. */
  datatype Page = Page(descriptions: seq<string>, links: seq<Link>, blocks: seq<string>, users: seq<string>)

  /** The six lists `getDataPage` returns. */
  datatype Listing = Listing(
    titles: seq<string>,
    descriptions: seq<string>,
    urls: seq<Option<string>>,
    downloads: seq<string>,
    users: seq<string>,
    dates: seq<string>)

  datatype ScrapeError =
    | NotFound(message: string)   // no detail div: the message is printed and the process exits
    | NoDate(block: nat)          // `.group()` on the `None` that the date search gave for this block
    | NoCount(block: nat)         // `append` or `.group()` on the `None` the count search gave

  const Separator: string := "Subtitulos de "
  const NoDescription: string := "Whitout description"
  const SizeText: nat := 20
  const NotFoundMessage: string := "Subtitles not found"
  const LegacyNotFoundMessage: string := "No suitable subtitles"

  /** The ban list of subdivx_dl/utils.py, with its question marks as they stand in the file. */
  const DlBanWords: seq<string> := ["t????tulo", "fecha", "downloads", "subtitulos en espa????ol"]

  /** The ban list of src/utils.py and subdivx.py: "título" and "español" read as UTF-8 bytes
      decoded as Latin-1. */
  const SrcBanWords: seq<string> :=
    ["t\U{C3}\U{AD}tulo", "fecha", "downloads", "subtitulos en espa\U{C3}\U{B1}ol"]

  /** `string[len(separator):]`: the first fourteen characters go, whatever they are. */
  function Title(text: string): (t: string)
    ensures |Separator| == 14
    ensures |t| == if |text| <= 14 then 0 else |text| - 14
    ensures forall i :: 0 <= i < |t| ==> t[i] == text[i + 14]
  {
    SliceFrom(text, |Separator|)
  }

  /** A link text that does carry the prefix gives the rest of it as title. */
  lemma TitleDropsSeparator(t: string)
    ensures Title(Separator + t) == t
  {
    assert (Separator + t)[|Separator|..] == t;
  }

  function Described(text: string): (d: string)
    ensures d != ""
    ensures text != "" ==> d == text
  {
    if text != "" then text else NoDescription
  }

  /** `re.search(patternDate, text).group()`, or `None` for the search's `None`. */
  function DateMatch(text: string): (d: Option<string>)
    ensures d.None? <==> forall i, j :: 0 <= i <= j <= |text| ==> !Matchers.IsTriple(text[i..j], '/')
    ensures d.Some? ==> Matchers.IsTriple(d.value, '/')
  {
    match Matchers.SearchDate(text)
    case None => None
    case Some((i, e)) => Some(text[i..e])
  }

  /** The entry `dateList` gets for a block: its first date or `'-'`. */
  function DateField(text: string): (d: string)
    ensures d == "-" <==> DateMatch(text).None?
    ensures d != "-" ==> d == DateMatch(text).value
  {
    match DateMatch(text)
    case None => "-"
    case Some(date) => assert date != "-" by { Matchers.TripleSlice(date, 0, |date|, '/'); } date
  }

  /** `re.search(patternNumber, text[:sizeText]).group()`, or `None` for the search's `None`. */
  function CountField(text: string): (c: Option<string>)
    ensures c.None? <==> forall i :: 0 <= i < |text| && i < SizeText ==> !IsDigit(text[i])
    ensures c.Some? ==> Matchers.IsCount(c.value)
  {
    var sub := SliceTo(text, SizeText);
    match Matchers.SearchCount(sub)
    case None => None
    case Some((i, e)) => Some(sub[i..e])
  }

  /** `[u for u in users if u not in banWord]`. */
  function Unbanned(users: seq<string>, banWords: seq<string>): seq<string>
  {
    Filter(users, (u: string) => u !in banWords)
  }

  /** The user list removes exactly the banned names, each other name as often as it occurs. */
  lemma UnbannedCount(users: seq<string>, banWords: seq<string>, u: string)
    ensures multiset(Unbanned(users, banWords))[u] == if u in banWords then 0 else multiset(users)[u]
  {
    FilterCount(users, (u: string) => u !in banWords, u);
  }

  /** The user list keeps page order: filtering a page split in two filters each part. */
  lemma UnbannedAppend(a: seq<string>, b: seq<string>, banWords: seq<string>)
    ensures Unbanned(a + b, banWords) == Unbanned(a, banWords) + Unbanned(b, banWords)
  {
    FilterAppend(a, b, (u: string) => u !in banWords);
  }

  /** The lists that both later versions build from a page. */
  ghost predicate IsListing(l: Listing, page: Page, banWords: seq<string>)
  {
    && |l.titles| == |page.links| && (forall i :: 0 <= i < |l.titles| ==> l.titles[i] == Title(page.links[i].text))
    && |l.descriptions| == |page.descriptions|
    && (forall i :: 0 <= i < |l.descriptions| ==> l.descriptions[i] == Described(page.descriptions[i]))
    && |l.urls| == |page.links| && (forall i :: 0 <= i < |l.urls| ==> l.urls[i] == page.links[i].href)
    && BlockFields(page.blocks) == Ok((l.dates, l.downloads))
    && l.users == Unbanned(page.users, banWords)
  }

  /** Every block before `n` has a count. */
  ghost predicate CountsUpTo(blocks: seq<string>, n: nat, count: string -> Option<string>)
    requires n <= |blocks|
  {
    forall i :: 0 <= i < n ==> count(blocks[i]).Some?
  }

  /** Every block before `n` has both a date and a count. */
  ghost predicate FieldsUpTo(blocks: seq<string>, n: nat, date: string -> Option<string>, count: string -> Option<string>)
    requires n <= |blocks|
  {
    forall i :: 0 <= i < n ==> date(blocks[i]).Some? && count(blocks[i]).Some?
  }

  /** The loop over the blocks of the later versions, for any way of reading a block's date
      field and its count: the dates and counts in order, or the first block without a count.  */
  function Scan(blocks: seq<string>, date: string -> string, count: string -> Option<string>)
    : Result<(seq<string>, seq<string>), ScrapeError>
  {
    if blocks == [] then Ok(([], []))
    else
      var n := |blocks| - 1;
      match Scan(blocks[..n], date, count)
      case Err(e) => Err(e)
      case Ok((dates, counts)) =>
        match count(blocks[n])
        case None => Err(NoCount(n))
        case Some(c) => Ok((dates + [date(blocks[n])], counts + [c]))
  }

  /** The loop of subdivx.py, where a block without a date fails first. */
  function LegacyScan(blocks: seq<string>, date: string -> Option<string>, count: string -> Option<string>)
    : Result<(seq<string>, seq<string>), ScrapeError>
  {
    if blocks == [] then Ok(([], []))
    else
      var n := |blocks| - 1;
      match LegacyScan(blocks[..n], date, count)
      case Err(e) => Err(e)
      case Ok((dates, counts)) =>
        match date(blocks[n])
        case None => Err(NoDate(n))
        case Some(d) =>
          match count(blocks[n])
          case None => Err(NoCount(n))
          case Some(c) => Ok((dates + [d], counts + [c]))
  }

  /** What the later versions read from the data blocks. */
  function BlockFields(blocks: seq<string>): Result<(seq<string>, seq<string>), ScrapeError>
  {
    Scan(blocks, DateField, CountField)
  }

  /** What subdivx.py reads from the data blocks. */
  function LegacyBlockFields(blocks: seq<string>): Result<(seq<string>, seq<string>), ScrapeError>
  {
    LegacyScan(blocks, DateMatch, CountField)
  }

  /** Every block is read exactly when every block has a count. */
  lemma {:induction false} ScanSucceeds(blocks: seq<string>, date: string -> string, count: string -> Option<string>)
    ensures Scan(blocks, date, count).Ok? <==> CountsUpTo(blocks, |blocks|, count)
  {
    if blocks != [] {
      var n := |blocks| - 1;
      var init := blocks[..n];
      ScanSucceeds(init, date, count);
      assert forall i :: 0 <= i < n ==> init[i] == blocks[i];
    }
  }

  /** A failed read names the first block without a count. */
  lemma {:induction false} ScanFailure(blocks: seq<string>, date: string -> string, count: string -> Option<string>)
    requires Scan(blocks, date, count).Err?
    ensures Scan(blocks, date, count).error.NoCount?
    ensures Scan(blocks, date, count).error.block < |blocks|
    ensures count(blocks[Scan(blocks, date, count).error.block]).None?
    ensures CountsUpTo(blocks, Scan(blocks, date, count).error.block, count)
  {
    var n := |blocks| - 1;
    var init := blocks[..n];
    assert forall i :: 0 <= i < n ==> init[i] == blocks[i];
    if Scan(init, date, count).Err? {
      ScanFailure(init, date, count);
    } else {
      ScanSucceeds(init, date, count);
    }
  }

  /** A successful read records for block `i` its date field and its count. */
  lemma {:induction false} ScanValues(blocks: seq<string>, date: string -> string, count: string -> Option<string>)
    requires Scan(blocks, date, count).Ok?
    ensures |Scan(blocks, date, count).value.0| == |blocks| && |Scan(blocks, date, count).value.1| == |blocks|
    ensures forall i :: 0 <= i < |blocks| ==> Scan(blocks, date, count).value.0[i] == date(blocks[i])
    ensures forall i :: 0 <= i < |blocks| ==> count(blocks[i]) == Some(Scan(blocks, date, count).value.1[i])
  {
    if blocks != [] {
      var n := |blocks| - 1;
      var init := blocks[..n];
      ScanValues(init, date, count);
      assert forall i :: 0 <= i < n ==> init[i] == blocks[i];
    }
  }

  /** Every block is read exactly when every block has a date and a count. */
  lemma {:induction false} LegacyScanSucceeds(blocks: seq<string>, date: string -> Option<string>, count: string -> Option<string>)
    ensures LegacyScan(blocks, date, count).Ok? <==> FieldsUpTo(blocks, |blocks|, date, count)
  {
    if blocks != [] {
      var n := |blocks| - 1;
      var init := blocks[..n];
      LegacyScanSucceeds(init, date, count);
      assert forall i :: 0 <= i < n ==> init[i] == blocks[i];
    }
  }

  /** A failed read names the first block that lacks a date or a count, and says which. */
  lemma {:induction false} LegacyScanFailure(blocks: seq<string>, date: string -> Option<string>, count: string -> Option<string>)
    requires LegacyScan(blocks, date, count).Err?
    ensures !LegacyScan(blocks, date, count).error.NotFound?
    ensures LegacyScan(blocks, date, count).error.block < |blocks|
    ensures FieldsUpTo(blocks, LegacyScan(blocks, date, count).error.block, date, count)
    ensures LegacyScan(blocks, date, count).error.NoDate? <==> date(blocks[LegacyScan(blocks, date, count).error.block]).None?
    ensures LegacyScan(blocks, date, count).error.NoCount? ==> count(blocks[LegacyScan(blocks, date, count).error.block]).None?
  {
    var n := |blocks| - 1;
    var init := blocks[..n];
    assert forall i :: 0 <= i < n ==> init[i] == blocks[i];
    if LegacyScan(init, date, count).Err? {
      LegacyScanFailure(init, date, count);
    } else {
      LegacyScanSucceeds(init, date, count);
    }
  }

  /** A successful read records for block `i` its date and its count. */
  lemma {:induction false} LegacyScanValues(blocks: seq<string>, date: string -> Option<string>, count: string -> Option<string>)
    requires LegacyScan(blocks, date, count).Ok?
    ensures |LegacyScan(blocks, date, count).value.0| == |blocks| && |LegacyScan(blocks, date, count).value.1| == |blocks|
    ensures forall i :: 0 <= i < |blocks| ==> date(blocks[i]) == Some(LegacyScan(blocks, date, count).value.0[i])
    ensures forall i :: 0 <= i < |blocks| ==> count(blocks[i]) == Some(LegacyScan(blocks, date, count).value.1[i])
  {
    if blocks != [] {
      var n := |blocks| - 1;
      var init := blocks[..n];
      LegacyScanValues(init, date, count);
      assert forall i :: 0 <= i < n ==> init[i] == blocks[i];
    }
  }

  /** Once a prefix of the blocks fails, the whole read fails there. */
  lemma {:induction false} ScanErrorStays(blocks: seq<string>, n: nat, date: string -> string, count: string -> Option<string>)
    requires n <= |blocks| && Scan(blocks[..n], date, count).Err?
    ensures Scan(blocks, date, count) == Scan(blocks[..n], date, count)
    decreases |blocks| - n
  {
    if n < |blocks| {
      assert blocks[..n + 1][..n] == blocks[..n];
      ScanErrorStays(blocks, n + 1, date, count);
    } else {
      assert blocks[..n] == blocks;
    }
  }

  lemma {:induction false} LegacyScanErrorStays(blocks: seq<string>, n: nat, date: string -> Option<string>, count: string -> Option<string>)
    requires n <= |blocks| && LegacyScan(blocks[..n], date, count).Err?
    ensures LegacyScan(blocks, date, count) == LegacyScan(blocks[..n], date, count)
    decreases |blocks| - n
  {
    if n < |blocks| {
      assert blocks[..n + 1][..n] == blocks[..n];
      LegacyScanErrorStays(blocks, n + 1, date, count);
    } else {
      assert blocks[..n] == blocks;
    }
  }

  /** The titles: one per link, in page order. */
  method Titles(links: seq<Link>) returns (titles: seq<string>)
    ensures |titles| == |links| && forall i :: 0 <= i < |links| ==> titles[i] == Title(links[i].text)
  {
    titles := [];
    for i := 0 to |links|
      invariant |titles| == i && forall k :: 0 <= k < i ==> titles[k] == Title(links[k].text)
    {
      titles := titles + [Title(links[i].text)];
    }
  }

  /** The user names that are not on the ban list, in page order. */
  method Users(names: seq<string>, banWords: seq<string>) returns (users: seq<string>)
    ensures users == Unbanned(names, banWords)
  {
    users := [];
    for i := 0 to |names|
      invariant users == Unbanned(names[..i], banWords)
    {
      assert names[..i + 1] == names[..i] + [names[i]];
      UnbannedAppend(names[..i], [names[i]], banWords);
      if names[i] !in banWords {
        users := users + [names[i]];
      }
    }
    assert names[..|names|] == names;
  }

  /** The descriptions, an empty one replaced by the placeholder. */
  method Descriptions(texts: seq<string>) returns (descriptions: seq<string>)
    ensures |descriptions| == |texts|
    ensures forall i :: 0 <= i < |texts| ==> descriptions[i] == Described(texts[i])
  {
    descriptions := [];
    for i := 0 to |texts|
      invariant |descriptions| == i
      invariant forall k :: 0 <= k < i ==> descriptions[k] == Described(texts[k])
    {
      var text := texts[i];
      if text != "" {
        descriptions := descriptions + [text];
      } else {
        descriptions := descriptions + [NoDescription];
      }
    }
  }

  /** The descriptions as they are (subdivx.py). */
  method LegacyDescriptions(texts: seq<string>) returns (descriptions: seq<string>)
    ensures descriptions == texts
  {
    descriptions := [];
    for i := 0 to |texts|
      invariant descriptions == texts[..i]
    {
      descriptions := descriptions + [texts[i]];
    }
    assert texts[..|texts|] == texts;
  }

  /** The `href` of every title link. */
  method Urls(links: seq<Link>) returns (urls: seq<Option<string>>)
    ensures |urls| == |links| && forall i :: 0 <= i < |links| ==> urls[i] == links[i].href
  {
    urls := [];
    for i := 0 to |links|
      invariant |urls| == i && forall k :: 0 <= k < i ==> urls[k] == links[k].href
    {
      urls := urls + [links[i].href];
    }
  }

  /** The loop over the data blocks of the later versions. */
  method ReadBlocks(blocks: seq<string>) returns (r: Result<(seq<string>, seq<string>), ScrapeError>)
    ensures r == BlockFields(blocks)
  {
    var dates := [];
    var downloads := [];
    for i := 0 to |blocks|
      invariant BlockFields(blocks[..i]) == Ok((dates, downloads))
    {
      var text := blocks[i];
      assert blocks[..i + 1][..i] == blocks[..i];
      var date := DateMatch(text);
      if date.Some? {
        dates := dates + [date.value];
      } else {
        dates := dates + ["-"];
      }
      var count := CountField(text);
      if count.None? {
        ScanErrorStays(blocks, i + 1, DateField, CountField);
        return Err(NoCount(i));
      }
      downloads := downloads + [count.value];
    }
    assert blocks[..|blocks|] == blocks;
    return Ok((dates, downloads));
  }

  /** The loop over the data blocks of subdivx.py. */
  method LegacyReadBlocks(blocks: seq<string>) returns (r: Result<(seq<string>, seq<string>), ScrapeError>)
    ensures r == LegacyBlockFields(blocks)
  {
    var dates := [];
    var downloads := [];
    for i := 0 to |blocks|
      invariant LegacyBlockFields(blocks[..i]) == Ok((dates, downloads))
    {
      var text := blocks[i];
      assert blocks[..i + 1][..i] == blocks[..i];
      var date := DateMatch(text);
      if date.None? {
        LegacyScanErrorStays(blocks, i + 1, DateMatch, CountField);
        return Err(NoDate(i));
      }
      var count := CountField(text);
      if count.None? {
        LegacyScanErrorStays(blocks, i + 1, DateMatch, CountField);
        return Err(NoCount(i));
      }
      dates := dates + [date.value];
      downloads := downloads + [count.value];
    }
    assert blocks[..|blocks|] == blocks;
    return Ok((dates, downloads));
  }

  /** `getDataPage` of subdivx_dl/utils.py and src/utils.py, which differ only in their ban
      lists: `DlGetDataPage` and `SrcGetDataPage` run it with each. */
  method GetDataPage(page: Page, banWords: seq<string>) returns (r: Result<Listing, ScrapeError>)
    ensures r == Err(NotFound(NotFoundMessage)) <==> page.descriptions == []
    ensures page.descriptions != [] && BlockFields(page.blocks).Err? ==> r == Err(BlockFields(page.blocks).error)
    ensures r.Ok? <==> page.descriptions != [] && BlockFields(page.blocks).Ok?
    ensures r.Ok? ==> IsListing(r.value, page, banWords)
    ensures r.Ok? ==> forall i :: 0 <= i < |r.value.descriptions| ==> r.value.descriptions[i] != ""
  {
    if page.descriptions == [] {
      return Err(NotFound(NotFoundMessage));
    }
    var titles := Titles(page.links);
    var descriptions := Descriptions(page.descriptions);
    var urls := Urls(page.links);
    var fields := ReadBlocks(page.blocks);
    if fields.Err? {
      ScanFailure(page.blocks, DateField, CountField);
      return Err(fields.error);
    }
    var users := Users(page.users, banWords);
    return Ok(Listing(titles, descriptions, urls, fields.value.1, users, fields.value.0));
  }

  /** `getDataPage` of subdivx_dl/utils.py, with the ban list of that file. */
  method DlGetDataPage(page: Page) returns (r: Result<Listing, ScrapeError>)
    ensures r == Err(NotFound(NotFoundMessage)) <==> page.descriptions == []
    ensures page.descriptions != [] && BlockFields(page.blocks).Err? ==> r == Err(BlockFields(page.blocks).error)
    ensures r.Ok? <==> page.descriptions != [] && BlockFields(page.blocks).Ok?
    ensures r.Ok? ==> IsListing(r.value, page, DlBanWords)
  {
    r := GetDataPage(page, DlBanWords);
  }

  /** `getDataPage` of src/utils.py, with the ban list of that file. */
  method SrcGetDataPage(page: Page) returns (r: Result<Listing, ScrapeError>)
    ensures r == Err(NotFound(NotFoundMessage)) <==> page.descriptions == []
    ensures page.descriptions != [] && BlockFields(page.blocks).Err? ==> r == Err(BlockFields(page.blocks).error)
    ensures r.Ok? <==> page.descriptions != [] && BlockFields(page.blocks).Ok?
    ensures r.Ok? ==> IsListing(r.value, page, SrcBanWords)
  {
    r := GetDataPage(page, SrcBanWords);
  }

  /** `getDataPage` of subdivx.py: descriptions are kept as they are, and as `re.search` never
      returns the string `'null'`, both guards always pass and a block without a date or
      without a count fails on `.group()`. */
  method LegacyGetDataPage(page: Page) returns (r: Result<Listing, ScrapeError>)
    ensures r == Err(NotFound(LegacyNotFoundMessage)) <==> page.descriptions == []
    ensures page.descriptions != [] && LegacyBlockFields(page.blocks).Err? ==>
      r == Err(LegacyBlockFields(page.blocks).error)
    ensures r.Ok? <==> page.descriptions != [] && LegacyBlockFields(page.blocks).Ok?
    ensures r.Ok? ==>
      && |r.value.titles| == |page.links|
      && (forall i :: 0 <= i < |page.links| ==> r.value.titles[i] == Title(page.links[i].text))
      && r.value.descriptions == page.descriptions
      && |r.value.urls| == |page.links| && (forall i :: 0 <= i < |page.links| ==> r.value.urls[i] == page.links[i].href)
      && LegacyBlockFields(page.blocks) == Ok((r.value.dates, r.value.downloads))
      && r.value.users == Unbanned(page.users, SrcBanWords)
  {
    if page.descriptions == [] {
      return Err(NotFound(LegacyNotFoundMessage));
    }
    var titles := Titles(page.links);
    var descriptions := LegacyDescriptions(page.descriptions);
    var urls := Urls(page.links);
    var fields := LegacyReadBlocks(page.blocks);
    if fields.Err? {
      LegacyScanFailure(page.blocks, DateMatch, CountField);
      return Err(fields.error);
    }
    var users := Users(page.users, SrcBanWords);
    return Ok(Listing(titles, descriptions, urls, fields.value.1, users, fields.value.0));
  }
}
