// wman: looks a manual page up under ./man_pages and prints it.  The
// directory tree is given as a map from readable file paths to their
// contents; what `access` and `fopen` report is read off that map.

module Wman {
  import opened Wrappers
  import opened CStrings

  const MIN_SECTION: nat := 1
  const MAX_SECTION: nat := 9
  const WMAN_SUCCESS: int := 0
  const WMAN_FAILURE: int := 1

  const INVALID_SECTION: string := "invalid section\n"
  const INVALID_USE: string := "Usage: ./wman <page>  or  ./wman <section> <page>\n"
  const NO_ARG: string := "What manual page do you want?\nFor example, try 'wman wman'\n"
  const MAN_DIR: string := "./man_pages/man"

  /** FILEPATH, "./man_pages/man%i/%s.%i". */
  function FilePath(page: string, section: nat): string
  {
    MAN_DIR + DecimalString(section) + "/" + page + "." + DecimalString(section)
  }

  /** For a one-digit section the path is the directory, the digit, '/', the page, '.', the digit. */
  lemma FilePathLayout(page: string, section: nat)
    requires MIN_SECTION <= section <= MAX_SECTION
    ensures var path := FilePath(page, section);
      |path| == |page| + 19 && path[..15] == MAN_DIR && path[15] == DigitChar(section)
      && path[16] == '/' && path[17..17 + |page|] == page
      && path[17 + |page|] == '.' && path[18 + |page|] == DigitChar(section)
  {
  }

  /** Distinct pages or sections never share a path. */
  lemma FilePathInjective(p1: string, s1: nat, p2: string, s2: nat)
    requires MIN_SECTION <= s1 <= MAX_SECTION && MIN_SECTION <= s2 <= MAX_SECTION
    requires FilePath(p1, s1) == FilePath(p2, s2)
    ensures p1 == p2 && s1 == s2
  {
    FilePathLayout(p1, s1);
    FilePathLayout(p2, s2);
    assert DigitValue(DigitChar(s1)) == s1 && DigitValue(DigitChar(s2)) == s2;
  }

  /** search_page_in_section: the page's contents when its file is readable. */
  function SearchPageInSection(page: string, section: nat, pages: map<string, string>): (r: Option<string>)
    ensures r.Some? <==> FilePath(page, section) in pages
    ensures r.Some? ==> r.value == pages[FilePath(page, section)]
  {
    var path := FilePath(page, section);
    if path in pages then Some(pages[path]) else None
  }

  /** search_all_pages: sections 1 to 9 in order; the first one holding the page wins. */
  method SearchAllPages(page: string, pages: map<string, string>) returns (found: Option<nat>)
    ensures found.Some? ==> (MIN_SECTION <= found.value <= MAX_SECTION
      && FilePath(page, found.value) in pages
      && forall s :: MIN_SECTION <= s < found.value ==> FilePath(page, s) !in pages)
    ensures found.None? ==> forall s :: MIN_SECTION <= s <= MAX_SECTION ==> FilePath(page, s) !in pages
  {
    var section := MIN_SECTION;
    while section <= MAX_SECTION
      invariant MIN_SECTION <= section <= MAX_SECTION + 1
      invariant forall s :: MIN_SECTION <= s < section ==> FilePath(page, s) !in pages
    {
      var handle := SearchPageInSection(page, section, pages);
      if handle.Some? {
        return Some(section);
      }
      section := section + 1;
    }
    return None;
  }

  /** PAGE_NOT_FOUND, "No manual entry for %s\n". */
  function PageNotFound(page: string): string
  {
    "No manual entry for " + page + "\n"
  }

  /** PAGE_NOT_FOUND_IN_SECTION, "No manual entry for %s in section %i\n". */
  function PageNotFoundInSection(page: string, section: nat): string
  {
    "No manual entry for " + page + " in section " + DecimalString(section) + "\n"
  }

  /** The section argument is accepted: one character whose atoi lies in 1..9. */
  predicate SectionArgAccepted(arg: string)
  {
    |arg| == 1 && MIN_SECTION <= Atoi(arg) <= MAX_SECTION
  }

  /** Exactly the digits 1 to 9 are accepted as a section. */
  lemma SectionArgIff(arg: string)
    ensures SectionArgAccepted(arg) <==> |arg| == 1 && '1' <= arg[0] <= '9'
    ensures SectionArgAccepted(arg) ==> Atoi(arg) == DigitValue(arg[0])
  {
    if |arg| == 1 {
      assert arg == [arg[0]];
      AtoiSingleChar(arg[0]);
    }
  }

  /** main, after the program name: what is printed and the exit status. */
  method Run(args: seq<string>, pages: map<string, string>) returns (out: string, status: int)
    ensures |args| == 0 ==> out == NO_ARG && status == WMAN_SUCCESS
    ensures |args| > 2 ==> out == INVALID_USE && status == WMAN_SUCCESS
    ensures |args| == 2 ==> (status == WMAN_FAILURE <==> !SectionArgAccepted(args[0]))
    ensures |args| == 2 ==> (status == WMAN_SUCCESS <==> SectionArgAccepted(args[0]))
    ensures |args| == 2 && !SectionArgAccepted(args[0]) ==> out == INVALID_SECTION
    ensures |args| == 2 && SectionArgAccepted(args[0]) ==>
      var section := Atoi(args[0]) as nat;
      out == (if FilePath(args[1], section) in pages then pages[FilePath(args[1], section)]
              else PageNotFoundInSection(args[1], section))
    ensures |args| == 1 ==> status == WMAN_SUCCESS
    ensures |args| == 1 && (forall s :: MIN_SECTION <= s <= MAX_SECTION ==> FilePath(args[0], s) !in pages) ==>
      out == PageNotFound(args[0])
    ensures |args| == 1 && (exists s :: MIN_SECTION <= s <= MAX_SECTION && FilePath(args[0], s) in pages) ==>
      exists s :: MIN_SECTION <= s <= MAX_SECTION && FilePath(args[0], s) in pages
        && out == pages[FilePath(args[0], s)]
        && forall t :: MIN_SECTION <= t < s ==> FilePath(args[0], t) !in pages
  {
    var handle: Option<string> := None;
    var page := "";
    var section: int := -1;
    if |args| == 0 {
      return NO_ARG, WMAN_SUCCESS;
    } else if |args| == 1 {
      page := args[0];
      var found := SearchAllPages(page, pages);
      if found.Some? {
        handle := Some(pages[FilePath(page, found.value)]);
      }
    } else if |args| == 2 {
      if |args[0]| != 1 {
        return INVALID_SECTION, WMAN_FAILURE;
      }
      section := Atoi(args[0]);
      if section < MIN_SECTION || section > MAX_SECTION {
        return INVALID_SECTION, WMAN_FAILURE;
      }
      page := args[1];
      handle := SearchPageInSection(page, section, pages);
    } else {
      return INVALID_USE, WMAN_SUCCESS;
    }
    if handle.None? {
      if section == -1 {
        out := PageNotFound(page);
      } else {
        out := PageNotFoundInSection(page, section);
      }
      return out, WMAN_SUCCESS;
    }
    return handle.value, WMAN_SUCCESS;
  }
}
