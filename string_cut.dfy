/**
 * Ordinal substring search and the three string cutters that scrape the
 * album page (Program.cs: CutFrom, CutTo, ExtractJson).
 *
 * A C# call that throws is modelled as `None`.
 */
module StringCut {
  import opened Wrappers

  /** The marker that precedes the embedded page data (Program.cs:18). */
  const NEXT_DATA: string := "__NEXT_DATA__"

  /** `t` occurs in `s` starting at index `i`. */
  ghost predicate OccursAt(s: string, t: string, i: int)
  {
    0 <= i && i + |t| <= |s| && s[i..i + |t|] == t
  }

  ghost predicate Contains(s: string, t: string)
  {
    exists i :: OccursAt(s, t, i)
  }

  /** `i` is the first occurrence of `t` in `s`. */
  ghost predicate IsFirst(s: string, t: string, i: int)
  {
    OccursAt(s, t, i) && forall j :: 0 <= j < i ==> !OccursAt(s, t, j)
  }

  /** `i` is the last occurrence of `t` in `s`. */
  ghost predicate IsLast(s: string, t: string, i: int)
  {
    OccursAt(s, t, i) && forall j :: i < j ==> !OccursAt(s, t, j)
  }

  /** The first occurrence of `t` in `s` at or after `from`, or -1. */
  function IndexFrom(s: string, t: string, from: nat): (r: int)
    ensures r == -1 || (from <= r && OccursAt(s, t, r))
    ensures forall j :: from <= j && (r == -1 || j < r) ==> !OccursAt(s, t, j)
    decreases |s| - from
  {
    if from + |t| > |s| then -1
    else if s[from..from + |t|] == t then from
    else IndexFrom(s, t, from + 1)
  }

  /** Ordinal `String.IndexOf(string)`: the first occurrence, or -1. */
  function IndexOf(s: string, t: string): (r: int)
    ensures r == -1 <==> !Contains(s, t)
    ensures r != -1 ==> IsFirst(s, t, r)
  {
    IndexFrom(s, t, 0)
  }

  /** The last occurrence of `t` in `s` that starts below `n`, or -1. */
  function LastIndexBelow(s: string, t: string, n: int): (r: int)
    ensures r == -1 || (r < n && OccursAt(s, t, r))
    ensures forall j :: (r < j < n) ==> !OccursAt(s, t, j)
    decreases n
  {
    if n <= 0 then -1
    else if n - 1 + |t| <= |s| && s[n - 1..n - 1 + |t|] == t then n - 1
    else LastIndexBelow(s, t, n - 1)
  }

  /**
   * Ordinal `String.LastIndexOf(string)`. For an empty `t` the .NET Framework
   * answers `|s| - 1` (0 for an empty `s`) rather than the last occurrence `|s|`.
   */
  function LastIndexOf(s: string, t: string): (r: int)
    ensures r == -1 <==> !Contains(s, t)
    ensures t != [] && r != -1 ==> IsLast(s, t, r)
    ensures t == [] ==> r == if s == [] then 0 else |s| - 1
  {
    if t == [] then
      assert OccursAt(s, t, 0);
      if s == [] then 0 else assert OccursAt(s, t, |s| - 1); |s| - 1
    else
      LastIndexBelow(s, t, |s| - |t| + 1)
  }

  /** `String.Substring(start)`, which throws when `start` is out of range. */
  function Substring(s: string, start: int): (r: Option<string>)
    ensures r.Some? <==> 0 <= start <= |s|
    ensures r.Some? ==> s == s[..start] + r.value
  {
    if 0 <= start <= |s| then Some(s[start..]) else None
  }

  /**
   * CutFrom (Program.cs:31-46): the text after the first (or, with `last`,
   * the last) occurrence of `cutAt`. When `cutAt` does not occur, the index
   * -1 is still advanced by `|cutAt|`, so the call quietly returns the
   * suffix from `|cutAt| - 1`, or throws when that is past the end.
   */
  function CutFrom(toCut: string, cutAt: string, last: bool): (r: Option<string>)
    ensures forall i {:trigger IsFirst(toCut, cutAt, i)} :: !last && IsFirst(toCut, cutAt, i) ==> r == Some(toCut[i + |cutAt|..])
    ensures forall i {:trigger IsLast(toCut, cutAt, i)} :: last && cutAt != [] && IsLast(toCut, cutAt, i) ==> r == Some(toCut[i + |cutAt|..])
    ensures last && cutAt == [] ==> r == Some(if toCut == [] then [] else toCut[|toCut| - 1..])
    ensures !Contains(toCut, cutAt) ==>
      r == if 1 <= |cutAt| <= |toCut| + 1 then Some(toCut[|cutAt| - 1..]) else None
    ensures r.Some? ==> |r.value| <= |toCut| && toCut == toCut[..|toCut| - |r.value|] + r.value
  {
    var index := if !last then IndexOf(toCut, cutAt) else LastIndexOf(toCut, cutAt);
    assert cutAt == [] ==> OccursAt(toCut, cutAt, 0);
    Substring(toCut, index + |cutAt|)
  }

  /**
   * CutTo (Program.cs:54-59): the text before the first occurrence of
   * `cutAt`; `Substring(0, -1)` throws when there is none.
   */
  function CutTo(toCut: string, cutAt: string): (r: Option<string>)
    ensures r.None? <==> !Contains(toCut, cutAt)
    ensures forall i {:trigger IsFirst(toCut, cutAt, i)} :: IsFirst(toCut, cutAt, i) ==> r == Some(toCut[..i])
  {
    var index := IndexOf(toCut, cutAt);
    if index == -1 then None else Some(toCut[..index])
  }

  /**
   * ExtractJson (Program.cs:196-201): cut after the marker, then after the
   * next '>', then up to the next '<'.
   */
  function ExtractJson(pageSource: string): Option<string>
  {
    match CutFrom(pageSource, NEXT_DATA, false)
    case None => None
    case Some(afterMarker) =>
      match CutFrom(afterMarker, ">", false)
      case None => None
      case Some(afterTag) => CutTo(afterTag, "<")
  }

  /** The suffix after the last occurrence of a non-empty `cutAt` holds no further occurrence. */
  lemma CutFromLastHasNoOccurrence(toCut: string, cutAt: string)
    requires cutAt != [] && Contains(toCut, cutAt)
    ensures CutFrom(toCut, cutAt, true).Some?
    ensures !Contains(CutFrom(toCut, cutAt, true).value, cutAt)
  {
    var i := LastIndexOf(toCut, cutAt);
    var rest := toCut[i + |cutAt|..];
    assert CutFrom(toCut, cutAt, true) == Some(rest);
    if j :| OccursAt(rest, cutAt, j) {
      assert toCut[i + |cutAt| + j..i + |cutAt| + j + |cutAt|] == rest[j..j + |cutAt|];
      assert OccursAt(toCut, cutAt, i + |cutAt| + j);
    }
  }

  /**
   * The text CutTo returns, followed by `cutAt`, is a prefix of the input,
   * and holds no earlier occurrence of a non-empty `cutAt`.
   */
  lemma CutToIsPrefixBeforeFirst(toCut: string, cutAt: string)
    requires cutAt != [] && Contains(toCut, cutAt)
    ensures CutTo(toCut, cutAt).Some?
    ensures var p := CutTo(toCut, cutAt).value;
      |p| + |cutAt| <= |toCut| && toCut[..|p| + |cutAt|] == p + cutAt && !Contains(p, cutAt)
  {
    var i := IndexOf(toCut, cutAt);
    var p := toCut[..i];
    assert CutTo(toCut, cutAt) == Some(p);
    assert toCut[..i + |cutAt|] == p + toCut[i..i + |cutAt|];
    if j :| OccursAt(p, cutAt, j) {
      assert toCut[j..j + |cutAt|] == p[j..j + |cutAt|];
      assert OccursAt(toCut, cutAt, j);
    }
  }

  /**
   * When the marker, a later '>' and a later '<' are present, ExtractJson
   * returns exactly the text strictly between the first '>' after the first
   * marker and the next '<'; it holds no '<'.
   */
  lemma ExtractJsonBetween(page: string, m: nat, gt: nat, lt: nat)
    requires IsFirst(page, NEXT_DATA, m)
    requires m + |NEXT_DATA| <= gt && IsFirst(page[m + |NEXT_DATA|..], ">", gt - m - |NEXT_DATA|)
    requires gt + 1 <= lt && IsFirst(page[gt + 1..], "<", lt - gt - 1)
    ensures ExtractJson(page) == Some(page[gt + 1..lt])
    ensures !Contains(page[gt + 1..lt], "<")
  {
    var afterMarker := page[m + |NEXT_DATA|..];
    assert CutFrom(page, NEXT_DATA, false) == Some(afterMarker);
    var afterTag := afterMarker[gt - m - |NEXT_DATA| + 1..];
    assert CutFrom(afterMarker, ">", false) == Some(afterTag);
    assert afterTag == page[gt + 1..];
    assert CutTo(afterTag, "<") == Some(afterTag[..lt - gt - 1]);
    assert afterTag[..lt - gt - 1] == page[gt + 1..lt];
    CutToIsPrefixBeforeFirst(afterTag, "<");
  }

  /** A page whose characters before the last twelve are not '_' holds no marker. */
  lemma NoMarker(page: string)
    requires forall i :: 0 <= i < |page| - 12 ==> page[i] != '_'
    ensures !Contains(page, NEXT_DATA)
  {
    forall i | 0 <= i && i + |NEXT_DATA| <= |page| ensures !OccursAt(page, NEXT_DATA, i) {
      assert page[i..i + |NEXT_DATA|][0] == page[i] != NEXT_DATA[0];
    }
  }

  /**
   * Without the marker, IndexOf's -1 plus the marker's length makes the
   * first cut start at offset 12 instead of failing, so the text strictly
   * between the first '>' from offset 12 on and the next '<' is returned.
   */
  lemma ExtractJsonWithoutMarkerBetween(page: string, gt: nat, lt: nat)
    requires !Contains(page, NEXT_DATA)
    requires 12 <= gt && 12 <= |page| && IsFirst(page[12..], ">", gt - 12)
    requires gt + 1 <= lt && IsFirst(page[gt + 1..], "<", lt - gt - 1)
    ensures ExtractJson(page) == Some(page[gt + 1..lt])
  {
    var afterMarker := page[12..];
    assert CutFrom(page, NEXT_DATA, false) == Some(afterMarker);
    var afterTag := afterMarker[gt - 12 + 1..];
    assert CutFrom(afterMarker, ">", false) == Some(afterTag);
    assert afterTag == page[gt + 1..];
    assert CutTo(afterTag, "<") == Some(afterTag[..lt - gt - 1]);
    assert afterTag[..lt - gt - 1] == page[gt + 1..lt];
  }

  /** An instance of the fall-through: a page with no marker at all. */
  lemma ExtractJsonWithoutMarker()
    ensures ExtractJson("0123456789AB>x<") == Some("x")
  {
    var page := "0123456789AB>x<";
    NoMarker(page);
    assert page[12..] == ">x<";
    assert CutFrom(page, NEXT_DATA, false) == Some(">x<");
    assert IsFirst(">x<", ">", 0) by {
      assert ">x<"[0..1] == ">";
    }
    assert CutFrom(">x<", ">", false) == Some("x<");
    assert IsFirst("x<", "<", 1) by {
      assert "x<"[1..2] == "<";
      assert "x<"[0..1] == "x" != "<";
    }
    assert "x<"[..1] == "x";
  }

  /**
   * The album folder name Main takes (Program.cs:248): for a URL holding a
   * '/', the text after the last '/', which ends the URL and holds no '/'.
   */
  lemma FolderNameIsLastSegment(url: string)
    requires Contains(url, "/")
    ensures var r := CutFrom(url, "/", true);
      && r.Some? && !Contains(r.value, "/")
      && |r.value| < |url| && url[|url| - |r.value| - 1..] == "/" + r.value
  {
    CutFromLastHasNoOccurrence(url, "/");
    var i := LastIndexOf(url, "/");
    assert CutFrom(url, "/", true) == Some(url[i + 1..]);
    assert url[i..] == url[i..i + 1] + url[i + 1..];
  }

  /** An instance: the folder name of an album URL. */
  lemma FolderNameFromAlbumUrl()
    ensures CutFrom("https://bunkr.is/a/Xyz12", "/", true) == Some("Xyz12")
  {
    var url := "https://bunkr.is/a/Xyz12";
    assert OccursAt(url, "/", 18);
    assert url[18..19] == "/";
    forall j | 18 < j && j + 1 <= |url| ensures !OccursAt(url, "/", j) {
      assert url[j..j + 1][0] == url[j] != '/';
    }
    assert IsLast(url, "/", 18);
    assert url[19..] == "Xyz12";
  }
}
