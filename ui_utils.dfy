/**
 * Title strings and id lookup (src/modules/uiUtils.js): the page title built
 * from the search, the folder filter and the count, the per-folder section
 * titles, and the filter-option id of a folder.
 */
module UiUtils {
  import opened Js
  import opened Model
  import opened BookmarkUtils

  /** `searchTerm && searchTerm.trim().length > 0`. */
  predicate HasSearch(term: string) {
    term != "" && Trim(term) != ""
  }

  /** A whitespace-only term is no search. */
  lemma BlankTermIsNoSearch(term: string)
    ensures HasSearch(term) <==> !IsBlank(term)
  {
    TrimEmptyIffBlank(term);
  }

  // ------------------------------------------------------------ folder path

  predicate IsSpaceOrDash(c: char) { IsSpace(c) || c == '-' }

  /** `label.replace(/^[\s\-]*\/, '')`: drops the leading run of whitespace and dashes. */
  function StripIndent(s: string): (r: string)
    ensures IsSuffix(r, s)
    ensures r == [] || !IsSpaceOrDash(r[0])
    ensures forall i :: 0 <= i < |s| - |r| ==> IsSpaceOrDash(s[i])
  {
    if s != [] && IsSpaceOrDash(s[0]) then StripIndent(s[1..]) else s
  }

  /** Length of the leading whitespace run. */
  function LeadingSpaces(s: string): (n: nat)
    ensures n <= |s| && (n == |s| || !IsSpace(s[n]))
    ensures forall i :: 0 <= i < n ==> IsSpace(s[i])
  {
    if s != [] && IsSpace(s[0]) then 1 + LeadingSpaces(s[1..]) else 0
  }

  /**
   * Length of a match of `\s*-\s*` anchored at the start of `s`, if any: the
   * greedy whitespace run, one dash, the greedy whitespace run after it.
   */
  function DashMatch(s: string): (r: Option<nat>)
    ensures r.Some? ==> 1 <= r.value <= |s| && '-' in s[..r.value]
  {
    var w := LeadingSpaces(s);
    if w < |s| && s[w] == '-' then
      assert s[..w + 1 + LeadingSpaces(s[w + 1..])][w] == '-';
      Some(w + 1 + LeadingSpaces(s[w + 1..]))
    else None
  }

  /** The matched text holds exactly one dash and otherwise whitespace. */
  lemma DashMatchShape(s: string)
    requires DashMatch(s).Some?
    ensures CountChar(s[..DashMatch(s).value], '-') == 1
    ensures CountChar(s[..DashMatch(s).value], '>') == 0
  {
    var w := LeadingSpaces(s);
    var k := DashMatch(s).value;
    var v := LeadingSpaces(s[w + 1..]);
    var a := s[..w] + [s[w]];
    assert s[..k] == a + s[w + 1..][..v];
    CountCharConcat(a, s[w + 1..][..v], '-');
    CountCharConcat(a, s[w + 1..][..v], '>');
    CountCharConcat(s[..w], [s[w]], '-');
    CountCharConcat(s[..w], [s[w]], '>');
    NoneOfChar(s[..w], '-');
    NoneOfChar(s[..w], '>');
    NoneOfChar(s[w + 1..][..v], '-');
    NoneOfChar(s[w + 1..][..v], '>');
  }

  /** `s.replace(/\s*-\s*\/g, ' > ')`, scanning left to right. */
  function ReplaceDashSeparators(s: string): (r: string)
    ensures '-' !in r
    decreases |s|
  {
    if s == [] then []
    else match DashMatch(s)
      case Some(k) => " > " + ReplaceDashSeparators(s[k..])
      case None => [s[0]] + ReplaceDashSeparators(s[1..])
  }

  lemma {:induction false} NoneOfChar(s: string, c: char)
    requires forall i :: 0 <= i < |s| ==> IsSpace(s[i])
    requires !IsSpace(c)
    ensures CountChar(s, c) == 0
  {
    if s != [] {
      NoneOfChar(s[1..], c);
    }
  }

  /**
   * Every dash becomes one " > " separator: the result has no dash, and as
   * many `>` as the input had `>` and `-` together.
   */
  lemma {:induction false} SeparatorCount(s: string)
    ensures CountChar(ReplaceDashSeparators(s), '>') == CountChar(s, '>') + CountChar(s, '-')
    decreases |s|
  {
    if s != [] {
      match DashMatch(s)
      case Some(k) =>
        SeparatorCount(s[k..]);
        SeparatorCountDash(s, k);
      case None =>
        SeparatorCount(s[1..]);
        SeparatorCountPlain(s);
    }
  }

  /** The step of SeparatorCount at a dash: the match counts one `-` and no `>`, the output one `>`. */
  lemma SeparatorCountDash(s: string, k: nat)
    requires s != [] && DashMatch(s) == Some(k)
    requires CountChar(ReplaceDashSeparators(s[k..]), '>') == CountChar(s[k..], '>') + CountChar(s[k..], '-')
    ensures CountChar(ReplaceDashSeparators(s), '>') == CountChar(s, '>') + CountChar(s, '-')
  {
    DashMatchShape(s);
    CountAcrossCut(s, k, '>');
    CountAcrossCut(s, k, '-');
    ReplaceAtDash(s, k);
    ArrowsAfterSeparator(ReplaceDashSeparators(s[k..]));
  }

  lemma CountAcrossCut(s: string, k: nat, c: char)
    requires k <= |s|
    ensures CountChar(s, c) == CountChar(s[..k], c) + CountChar(s[k..], c)
  {
    assert s == s[..k] + s[k..];
    CountCharConcat(s[..k], s[k..], c);
  }

  lemma ArrowsAfterSeparator(x: string)
    ensures CountChar(" > " + x, '>') == 1 + CountChar(x, '>')
  {
    CountCharConcat(" > ", x, '>');
    OneArrowInSeparator();
  }

  lemma ReplaceAtDash(s: string, k: nat)
    requires s != [] && DashMatch(s) == Some(k)
    ensures ReplaceDashSeparators(s) == " > " + ReplaceDashSeparators(s[k..])
  {
  }

  lemma OneArrowInSeparator()
    ensures CountChar(" > ", '>') == 1
  {
    assert " > "[1..] == "> " && "> "[1..] == " " && " "[1..] == [];
  }

  /** The step of SeparatorCount at any other character, which is copied. */
  lemma SeparatorCountPlain(s: string)
    requires s != [] && DashMatch(s).None?
    requires CountChar(ReplaceDashSeparators(s[1..]), '>') == CountChar(s[1..], '>') + CountChar(s[1..], '-')
    ensures CountChar(ReplaceDashSeparators(s), '>') == CountChar(s, '>') + CountChar(s, '-')
  {
    assert s[0] != '-';
    ReplaceAtPlain(s);
    CountCharConcat([s[0]], ReplaceDashSeparators(s[1..]), '>');
  }

  /** A string without dashes is left as it is. */
  lemma {:induction false} NoDashUnchanged(s: string)
    requires '-' !in s
    ensures ReplaceDashSeparators(s) == s
    decreases |s|
  {
    if s != [] {
      NoDashNoMatch(s);
      assert '-' !in s[1..] by {
        forall j | 0 <= j < |s| - 1 ensures s[1..][j] != '-' {
          assert s[1..][j] == s[j + 1] && s[j + 1] in s;
        }
      }
      NoDashUnchanged(s[1..]);
      ReplaceAtPlain(s);
      assert s == [s[0]] + s[1..];
    }
  }

  lemma NoDashNoMatch(s: string)
    requires '-' !in s
    ensures DashMatch(s).None?
  {
    var w := LeadingSpaces(s);
    if w < |s| { assert s[w] in s; }
  }

  lemma ReplaceAtPlain(s: string)
    requires s != [] && DashMatch(s).None?
    ensures ReplaceDashSeparators(s) == [s[0]] + ReplaceDashSeparators(s[1..])
  {
  }

  /** The folder path shown in a filtered title, from an option label. */
  function FolderPath(text: string): (r: string)
    ensures r == [] || !IsSpaceOrDash(r[0]) || Contains(StripIndent(text), "- ")
    ensures !Contains(StripIndent(text), "- ") ==> r == StripIndent(text)
    ensures Contains(StripIndent(text), "- ") ==> '-' !in r
  {
    var name := StripIndent(text);
    if Contains(name, "- ") then ReplaceDashSeparators(name) else name
  }

  /** The path of the filter option whose value loosely equals the filter, "" when there is none. */
  function FilterPath(filterId: JsVal, options: seq<FilterOption>): string {
    match FindByValue(options, filterId)
    case Some(o) => FolderPath(o.text)
    case None => ""
  }

  // ------------------------------------------------------------ titles

  function Quoted(term: string): string {
    "\"" + term + "\""
  }

  function Count(n: nat): string {
    " (" + NatToString(n) + ")"
  }

  /** getDynamicTitle: the flags and the folder path the title is built from. */
  function GetDynamicTitle(term: string, filterId: JsVal, count: nat, options: seq<FilterOption>): string {
    var hasFilter := IsActiveFilter(filterId);
    TitleText(HasSearch(term), hasFilter, term, if hasFilter then FilterPath(filterId, options) else "", count)
  }

  /** getDynamicTitle's choice of title, given the flags and the folder path. */
  function TitleText(hasSearch: bool, hasFilter: bool, term: string, path: string, count: nat): string {
    if hasSearch && hasFilter then
      if count == 0 then "No results for " + Quoted(term) + " in " + path
      else "Results for " + Quoted(term) + " in " + path + Count(count)
    else if hasSearch then
      if count == 0 then "No results for " + Quoted(term)
      else "Results for " + Quoted(term) + Count(count)
    else if hasFilter then "Folder: " + path + Count(count)
    else "Bookmarks" + Count(count)
  }

  lemma PrefixOfConcat(p: string, b: string)
    ensures IsPrefix(p, p + b)
  {
    assert (p + b)[..|p|] == p;
  }

  lemma SuffixOfConcat(a: string, q: string)
    ensures IsSuffix(q, a + q)
  {
    assert (a + q)[|a|..] == q;
  }

  lemma FirstCharDiffers(p: string, r: string)
    requires p != [] && r != [] && p[0] != r[0]
    ensures !IsPrefix(p, r)
  {
  }

  lemma ContainsMiddle(a: string, b: string, c: string)
    ensures Contains(a + b + c, b)
  {
    assert (a + b + c)[|a|..|a| + |b|] == b;
    ContainsAt(a + b + c, b, |a|);
  }

  lemma TitleTextNoResults(hasSearch: bool, hasFilter: bool, term: string, path: string, count: nat)
    ensures IsPrefix("No results", TitleText(hasSearch, hasFilter, term, path, count)) <==> hasSearch && count == 0
  {
    var r := TitleText(hasSearch, hasFilter, term, path, count);
    if hasSearch && count == 0 {
      var rest := " for " + Quoted(term) + (if hasFilter then " in " + path else "");
      assert "No results for " == "No results" + " for ";
      assert r == "No results" + rest;
      PrefixOfConcat("No results", rest);
    } else {
      var first := if hasSearch then "Results for " else if hasFilter then "Folder: " else "Bookmarks";
      assert r == first + r[|first|..];
      FirstCharDiffers("No results", r);
    }
  }

  lemma TitleTextShowsCount(hasSearch: bool, hasFilter: bool, term: string, path: string, count: nat)
    requires !(hasSearch && count == 0)
    ensures IsSuffix(Count(count), TitleText(hasSearch, hasFilter, term, path, count))
  {
    var r := TitleText(hasSearch, hasFilter, term, path, count);
    var front :=
      if hasSearch && hasFilter then "Results for " + Quoted(term) + " in " + path
      else if hasSearch then "Results for " + Quoted(term)
      else if hasFilter then "Folder: " + path
      else "Bookmarks";
    assert r == front + Count(count);
    SuffixOfConcat(front, Count(count));
  }

  lemma TitleTextFolder(hasSearch: bool, hasFilter: bool, term: string, path: string, count: nat)
    ensures IsPrefix("Folder: ", TitleText(hasSearch, hasFilter, term, path, count)) <==> !hasSearch && hasFilter
  {
    var r := TitleText(hasSearch, hasFilter, term, path, count);
    if !hasSearch && hasFilter {
      assert r == "Folder: " + (path + Count(count));
      PrefixOfConcat("Folder: ", path + Count(count));
    } else {
      var first := if hasSearch && count == 0 then "No results for " else if hasSearch then "Results for " else "Bookmarks";
      assert r == first + r[|first|..];
      FirstCharDiffers("Folder: ", r);
    }
  }

  lemma TitleTextQuotesTerm(hasFilter: bool, term: string, path: string, count: nat)
    ensures Contains(TitleText(true, hasFilter, term, path, count), Quoted(term))
  {
    var r := TitleText(true, hasFilter, term, path, count);
    var p := if count == 0 then "No results for " else "Results for ";
    var rest := (if hasFilter then " in " + path else "") + (if count == 0 then "" else Count(count));
    assert r == p + Quoted(term) + rest;
    ContainsMiddle(p, Quoted(term), rest);
  }

  /** The title reports "No results" exactly when a search found nothing. */
  lemma TitleNoResults(term: string, filterId: JsVal, count: nat, options: seq<FilterOption>)
    ensures IsPrefix("No results", GetDynamicTitle(term, filterId, count, options)) <==> HasSearch(term) && count == 0
  {
    var hasFilter := IsActiveFilter(filterId);
    TitleTextNoResults(HasSearch(term), hasFilter, term, if hasFilter then FilterPath(filterId, options) else "", count);
  }

  /**
   * Except for "No results", the title always ends with the count, also
   * when a filter alone finds nothing; with neither search nor filter it is
   * `Bookmarks (n)`.
   */
  lemma TitleShowsCount(term: string, filterId: JsVal, count: nat, options: seq<FilterOption>)
    ensures !(HasSearch(term) && count == 0) ==> IsSuffix(Count(count), GetDynamicTitle(term, filterId, count, options))
    ensures !HasSearch(term) && !IsActiveFilter(filterId) ==> GetDynamicTitle(term, filterId, count, options) == "Bookmarks (" + NatToString(count) + ")"
  {
    var hasFilter := IsActiveFilter(filterId);
    if !(HasSearch(term) && count == 0) {
      TitleTextShowsCount(HasSearch(term), hasFilter, term, if hasFilter then FilterPath(filterId, options) else "", count);
    }
    if !HasSearch(term) && !hasFilter {
      assert GetDynamicTitle(term, filterId, count, options) == "Bookmarks" + Count(count);
      assert "Bookmarks" + Count(count) == "Bookmarks (" + NatToString(count) + ")";
    }
  }

  /** A "Folder: " title is exactly a filter without a search. */
  lemma TitleFolder(term: string, filterId: JsVal, count: nat, options: seq<FilterOption>)
    ensures IsPrefix("Folder: ", GetDynamicTitle(term, filterId, count, options)) <==> !HasSearch(term) && IsActiveFilter(filterId)
  {
    var hasFilter := IsActiveFilter(filterId);
    TitleTextFolder(HasSearch(term), hasFilter, term, if hasFilter then FilterPath(filterId, options) else "", count);
  }

  /** A search title quotes the term. */
  lemma TitleQuotesTerm(term: string, filterId: JsVal, count: nat, options: seq<FilterOption>)
    requires HasSearch(term)
    ensures Contains(GetDynamicTitle(term, filterId, count, options), Quoted(term))
  {
    var hasFilter := IsActiveFilter(filterId);
    TitleTextQuotesTerm(hasFilter, term, if hasFilter then FilterPath(filterId, options) else "", count);
  }

  /** A whitespace-only search gives the same title as no search at all. */
  lemma BlankSearchTitle(term: string, filterId: JsVal, count: nat, options: seq<FilterOption>)
    requires IsBlank(term)
    ensures GetDynamicTitle(term, filterId, count, options) == GetDynamicTitle("", filterId, count, options)
  {
    BlankTermIsNoSearch(term);
  }

  /** An active filter whose option is unknown gives an empty folder path. */
  lemma UnknownFilterEmptyPath(filterId: JsVal, count: nat, options: seq<FilterOption>)
    requires IsActiveFilter(filterId) && FindByValue(options, filterId).None?
    ensures GetDynamicTitle("", filterId, count, options) == "Folder: " + Count(count)
  {
  }

  /**
   * getDynamicSectionTitle: None (null) when the folder has no matching
   * bookmark; otherwise the folder title, the search if there is one, and
   * the count.
   */
  function GetDynamicSectionTitle(folder: Node, term: string, filterId: JsVal): (r: Option<string>)
    ensures r.None? <==> CountMatching(folder, term) == 0
    ensures r.Some? ==> IsPrefix(folder.title, r.value) && IsSuffix(Count(CountMatching(folder, term)), r.value)
    ensures r.Some? && !HasSearch(term) ==> r.value == folder.title + Count(CountMatching(folder, term))
  {
    var count := CountMatching(folder, term);
    var hasSearch := HasSearch(term);
    var isFiltered := IsActiveFilter(filterId);
    if count == 0 then None
    else if hasSearch && isFiltered then Some(folder.title + " - Results for " + Quoted(term) + Count(count))
    else if hasSearch then Some(folder.title + " - Results for " + Quoted(term) + Count(count))
    else if isFiltered then Some(folder.title + Count(count))
    else Some(folder.title + Count(count))
  }

  /** The filter never changes a section title. */
  lemma SectionTitleIgnoresFilter(folder: Node, term: string, f1: JsVal, f2: JsVal)
    ensures GetDynamicSectionTitle(folder, term, f1) == GetDynamicSectionTitle(folder, term, f2)
  {
  }

  /** A section is left out exactly when no bookmark under it has a url and matches. */
  lemma EmptySectionIffNoMatch(folder: Node, term: string, filterId: JsVal)
    ensures GetDynamicSectionTitle(folder, term, filterId).None? <==>
      forall i :: 0 <= i < |Preorder(folder)| ==> !IsMatchingBookmark(Preorder(folder)[i], term)
  {
    CountIsMatchingNodes(folder, term);
    CountWhereZero(Preorder(folder), n => IsMatchingBookmark(n, term));
  }

  lemma {:induction false} CountWhereZero<T>(s: seq<T>, p: T -> bool)
    ensures CountWhere(s, p) == 0 <==> forall i :: 0 <= i < |s| ==> !p(s[i])
  {
    if s != [] {
      CountWhereZero(s[1..], p);
      assert forall i :: 1 <= i < |s| ==> s[i] == s[1..][i - 1];
    }
  }

  // ------------------------------------------------------------ ids

  /** `options.find(o => o.value === v)`. */
  function FindByStrictValue(options: seq<FilterOption>, v: JsVal): (r: Option<nat>)
    ensures r.Some? ==> r.value < |options| && options[r.value].value == v
    ensures r.Some? ==> forall j :: 0 <= j < r.value ==> options[j].value != v
    ensures r.None? ==> forall j :: 0 <= j < |options| ==> options[j].value != v
  {
    if options == [] then None
    else if options[0].value == v then Some(0)
    else match FindByStrictValue(options[1..], v)
      case Some(i) => Some(i + 1)
      case None => None
  }

  /**
   * computeId: the `id` of the first option whose value strictly equals
   * `id`, otherwise `"fallback-" + id`.
   */
  function ComputeId(id: JsVal, options: seq<FilterOption>): (r: JsVal)
    ensures (forall j :: 0 <= j < |options| ==> options[j].value != id) ==> r == Str("fallback-" + ToString(id))
    ensures forall i :: (0 <= i < |options| && options[i].value == id
      && forall j :: 0 <= j < i ==> options[j].value != id) ==> r == options[i].id
  {
    match FindByStrictValue(options, id)
    case Some(i) => options[i].id
    case None => Str("fallback-" + ToString(id))
  }
}
