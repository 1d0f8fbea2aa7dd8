/**
 * `parse_categories_and_tickers`: a line scan of the catalogue. A `## `
 * line opens a category; a `|` table row below a header gives one entry
 * (ticker, company name, industry); a ticker already listed in the current
 * category is skipped; categories left without entries are dropped at the end.
 */
module Catalogue {
  import opened Wrappers
  import opened Text
  import opened Seqs

  datatype Entry = Entry(ticker: string, companyName: string, industry: string)

  /**
   * What the ticker patterns and the name clean-up find in a company cell:
   * the ticker and the company name, or nothing when no ticker matches.
   */
  type Extractor = string -> Option<(string, string)>

  /** An insertion-ordered dictionary from category name to its entries. */
  datatype Categories = Categories(order: seq<string>, groups: map<string, seq<Entry>>)

  /** The order lists every key once. */
  ghost predicate Valid(c: Categories)
  {
    Distinct(c.order) && (forall k :: k in c.groups <==> k in c.order)
  }

  /** `any(item['ticker'] == ticker for item in entries)` */
  predicate HasTicker(entries: seq<Entry>, ticker: string)
  {
    exists i :: 0 <= i < |entries| && entries[i].ticker == ticker
  }

  predicate UniqueTickers(entries: seq<Entry>)
  {
    forall i, j :: 0 <= i < j < |entries| ==> entries[i].ticker != entries[j].ticker
  }

  /** The invariant of the scan: well-formed dictionary, current category present, unique tickers. */
  ghost predicate Consistent(c: Categories, current: Option<string>)
  {
    && Valid(c)
    && (current.Some? ==> current.value in c.groups)
    && (forall k :: k in c.groups ==> UniqueTickers(c.groups[k]))
    && (forall k, i :: k in c.groups && 0 <= i < |c.groups[k]| ==>
          c.groups[k][i].ticker != "" && c.groups[k][i].companyName != "")
  }

  /** `categories[name] = entries`, keeping the position of an existing key. */
  function Put(c: Categories, name: string, entries: seq<Entry>): (r: Categories)
    requires Valid(c)
    ensures Valid(r) && r.groups == c.groups[name := entries]
    ensures r.order == if name in c.groups then c.order else c.order + [name]
  {
    if name in c.groups then Categories(c.order, c.groups[name := entries])
    else Categories(c.order + [name], c.groups[name := entries])
  }

  /** `[p.strip() for p in row.split('|')[1:-1]]` */
  function Cells(row: string): (cells: seq<string>)
    ensures var pieces := Split(row, '|');
            && |cells| == (if |pieces| < 2 then 0 else |pieces| - 2)
            && forall k :: 0 <= k < |cells| ==> cells[k] == Strip(pieces[k + 1])
  {
    var pieces := Split(row, '|');
    if |pieces| < 2 then []
    else seq(|pieces| - 2, k requires 0 <= k < |pieces| - 2 => Strip(pieces[k + 1]))
  }

  /** The scan state: the dictionary so far and `current_category`. */
  datatype ScanState = ScanState(cats: Categories, current: Option<string>)

  /** `line_strip` opens a category. */
  predicate IsHeader(s: string)
  {
    StartsWith(s, "## ")
  }

  /** `line_strip` is a table row under an open category. */
  predicate IsRowUnderHeader(s: string, current: Option<string>)
  {
    StartsWith(s, "|") && current.Some? && current.value != "" && !StartsWith(s, "|--")
  }

  /** The entry a row contributes, if any, before the duplicate check. */
  function RowEntry(s: string, extract: Extractor): (r: Option<Entry>)
    ensures r.Some? ==> r.value.ticker != "" && r.value.companyName != ""
    ensures var cells := Cells(s);
            r.Some? <==> |cells| >= 2 && extract(cells[0]).Some?
                         && extract(cells[0]).value.0 != "" && extract(cells[0]).value.1 != ""
    ensures r.Some? ==> var cells := Cells(s);
            r.value == Entry(extract(cells[0]).value.0, extract(cells[0]).value.1, cells[1])
  {
    var cells := Cells(s);
    if |cells| >= 2 then
      match extract(cells[0])
      case Some((ticker, name)) =>
        if ticker != "" && name != "" then Some(Entry(ticker, name, cells[1])) else None
      case None => None
    else None
  }

  lemma HeaderKeepsConsistent(c: Categories, current: Option<string>, name: string)
    requires Consistent(c, current)
    ensures Consistent(Put(c, name, []), Some(name))
  {
    var r := Put(c, name, []);
    forall k | k in r.groups ensures UniqueTickers(r.groups[k]) {
      if k != name { assert r.groups[k] == c.groups[k]; }
    }
  }

  lemma AppendKeepsConsistent(c: Categories, cur: string, e: Entry)
    requires Consistent(c, Some(cur))
    requires !HasTicker(c.groups[cur], e.ticker) && e.ticker != "" && e.companyName != ""
    ensures Consistent(Put(c, cur, c.groups[cur] + [e]), Some(cur))
  {
    var entries := c.groups[cur] + [e];
    var r := Put(c, cur, entries);
    assert UniqueTickers(entries) by {
      forall i, j | 0 <= i < j < |entries| ensures entries[i].ticker != entries[j].ticker {
        if j == |entries| - 1 {
          assert entries[i] == c.groups[cur][i];
        }
      }
    }
    forall k | k in r.groups ensures UniqueTickers(r.groups[k]) {
      if k != cur { assert r.groups[k] == c.groups[k]; }
    }
    forall k, i | k in r.groups && 0 <= i < |r.groups[k]|
      ensures r.groups[k][i].ticker != "" && r.groups[k][i].companyName != ""
    {
      if k != cur { assert r.groups[k] == c.groups[k]; }
      else if i < |c.groups[cur]| { assert r.groups[k][i] == c.groups[cur][i]; }
    }
  }

  /** One iteration of the scan over the lines of the file. */
  function ScanLine(st: ScanState, line: string, extract: Extractor): (r: ScanState)
    requires Consistent(st.cats, st.current)
    ensures Consistent(r.cats, r.current)
  {
    var s := Strip(line);
    if IsHeader(s) then
      var name := Strip(s[3..]);
      HeaderKeepsConsistent(st.cats, st.current, name);
      ScanState(Put(st.cats, name, []), Some(name))
    else if IsRowUnderHeader(s, st.current) then
      var cur := st.current.value;
      match RowEntry(s, extract)
      case Some(e) =>
        var entries := st.cats.groups[cur];
        if HasTicker(entries, e.ticker) then st
        else
          AppendKeepsConsistent(st.cats, cur, e);
          ScanState(Put(st.cats, cur, entries + [e]), st.current)
      case None => st
    else st
  }

  /** The scan over a prefix of the file. */
  function ScanLines(lines: seq<string>, extract: Extractor): (r: ScanState)
    ensures Consistent(r.cats, r.current)
  {
    if lines == [] then ScanState(Categories([], map[]), None)
    else ScanLine(ScanLines(lines[..|lines| - 1], extract), lines[|lines| - 1], extract)
  }

  /** Scanning one more line is one more step of the scan. */
  lemma ScanLinesSnoc(lines: seq<string>, line: string, extract: Extractor)
    ensures ScanLines(lines + [line], extract) == ScanLine(ScanLines(lines, extract), line, extract)
  {
    CutSnoc(lines, line);
  }

  /** A table row seen before any `## ` header adds nothing. */
  lemma RowBeforeHeaderIgnored(st: ScanState, line: string, extract: Extractor)
    requires Consistent(st.cats, st.current) && st.current.None?
    requires !IsHeader(Strip(line))
    ensures ScanLine(st, line, extract) == st
  {
  }

  /** A `|--` separator row adds nothing. */
  lemma SeparatorRowIgnored(st: ScanState, line: string, extract: Extractor)
    requires Consistent(st.cats, st.current)
    requires StartsWith(Strip(line), "|--")
    ensures ScanLine(st, line, extract) == st
  {
    var s := Strip(line);
    assert s[0] == '|';
    assert !IsHeader(s);
  }

  /** A row with fewer than two cells adds nothing. */
  lemma ShortRowIgnored(st: ScanState, line: string, extract: Extractor)
    requires Consistent(st.cats, st.current)
    requires !IsHeader(Strip(line)) && |Cells(Strip(line))| < 2
    ensures ScanLine(st, line, extract) == st
  {
  }

  /** A row whose ticker the current category already lists adds nothing. */
  lemma DuplicateTickerIgnored(st: ScanState, line: string, extract: Extractor)
    requires Consistent(st.cats, st.current)
    requires !IsHeader(Strip(line)) && IsRowUnderHeader(Strip(line), st.current)
    requires RowEntry(Strip(line), extract).Some?
    requires HasTicker(st.cats.groups[st.current.value], RowEntry(Strip(line), extract).value.ticker)
    ensures ScanLine(st, line, extract) == st
  {
  }

  /**
   * A `## ` header opens (or re-opens) its category with no entries: a new
   * name goes to the end of the order, a repeated one keeps its place and
   * loses the entries gathered so far.
   */
  lemma HeaderOpensCategory(st: ScanState, line: string, extract: Extractor)
    requires Consistent(st.cats, st.current)
    requires IsHeader(Strip(line))
    ensures var name := Strip(Strip(line)[3..]); var r := ScanLine(st, line, extract);
            && r.current == Some(name) && r.cats.groups == st.cats.groups[name := []]
            && r.cats.order == if name in st.cats.groups then st.cats.order else st.cats.order + [name]
  {
  }

  /**
   * Any other line changes at most the current category, and only by
   * appending one entry with a ticker the category did not list.
   */
  lemma RowAppendsAtMostOne(st: ScanState, line: string, extract: Extractor)
    requires Consistent(st.cats, st.current)
    requires !IsHeader(Strip(line))
    ensures var r := ScanLine(st, line, extract);
            && r.current == st.current && r.cats.order == st.cats.order
            && r.cats.groups.Keys == st.cats.groups.Keys
            && (forall k :: k in st.cats.groups && Some(k) != st.current ==> r.cats.groups[k] == st.cats.groups[k])
            && (st.current.Some? ==>
                  var old_ := st.cats.groups[st.current.value]; var new_ := r.cats.groups[st.current.value];
                  new_ == old_ || (exists e :: new_ == old_ + [e] && !HasTicker(old_, e.ticker)))
  {
    var s := Strip(line);
    if IsRowUnderHeader(s, st.current) {
      var cur := st.current.value;
      match RowEntry(s, extract)
      case Some(e) =>
        if !HasTicker(st.cats.groups[cur], e.ticker) {
          var r := ScanLine(st, line, extract);
          assert r.cats.groups[cur] == st.cats.groups[cur] + [e];
        }
      case None =>
    }
  }

  /**
   * A row under a header whose entry has a ticker the current category does
   * not list yet is appended to that category, and nothing else changes.
   */
  lemma RowAppendsEntry(st: ScanState, line: string, extract: Extractor, e: Entry)
    requires Consistent(st.cats, st.current)
    requires !IsHeader(Strip(line)) && IsRowUnderHeader(Strip(line), st.current)
    requires RowEntry(Strip(line), extract) == Some(e)
    requires !HasTicker(st.cats.groups[st.current.value], e.ticker)
    ensures var r := ScanLine(st, line, extract); var cur := st.current.value;
            && r.current == st.current && r.cats.order == st.cats.order
            && r.cats.groups == st.cats.groups[cur := st.cats.groups[cur] + [e]]
  {
  }

  /** Hence such a line keeps every category's entries as a prefix. */
  lemma RowKeepsPrefixes(st: ScanState, line: string, extract: Extractor)
    requires Consistent(st.cats, st.current)
    requires !IsHeader(Strip(line))
    ensures var r := ScanLine(st, line, extract);
            && r.current == st.current && r.cats.order == st.cats.order
            && r.cats.groups.Keys == st.cats.groups.Keys
            && forall k :: k in st.cats.groups ==> st.cats.groups[k] <= r.cats.groups[k]
  {
    RowAppendsAtMostOne(st, line, extract);
  }

  /**
   * Lines without headers only ever append: every category keeps the
   * entries it had as a prefix, so the first row seen for a ticker is the
   * one that stays.
   */
  lemma {:induction false} NonHeaderLinesOnlyAppend(lines: seq<string>, more: seq<string>, extract: Extractor)
    requires forall i :: 0 <= i < |more| ==> !IsHeader(Strip(more[i]))
    ensures var a := ScanLines(lines, extract); var b := ScanLines(lines + more, extract);
            && a.cats.order == b.cats.order && a.current == b.current
            && a.cats.groups.Keys == b.cats.groups.Keys
            && forall k :: k in a.cats.groups ==> a.cats.groups[k] <= b.cats.groups[k]
    decreases |more|
  {
    if more == [] {
      assert lines + more == lines;
    } else {
      var init, last := more[..|more| - 1], more[|more| - 1];
      NonHeaderLinesOnlyAppend(lines, init, extract);
      ConcatSnoc(lines, more);
      ScanLinesSnoc(lines + init, last, extract);
      var a, b0 := ScanLines(lines, extract), ScanLines(lines + init, extract);
      var b := ScanLines(lines + more, extract);
      RowKeepsPrefixes(b0, last, extract);
      forall k | k in a.cats.groups ensures a.cats.groups[k] <= b.cats.groups[k] {
        assert a.cats.groups[k] <= b0.cats.groups[k] <= b.cats.groups[k];
      }
    }
  }

  /** `a` is `b` with some elements left out, the others in their order. */
  predicate Subsequence<T(==)>(a: seq<T>, b: seq<T>)
    decreases |b|
  {
    if a == [] then true
    else if b == [] then false
    else if a[0] == b[0] then Subsequence(a[1..], b[1..])
    else Subsequence(a, b[1..])
  }

  /** The names of the categories with entries, in their order. */
  function NonEmptyNames(order: seq<string>, groups: map<string, seq<Entry>>): (r: seq<string>)
    requires forall k :: k in order ==> k in groups
    ensures forall k :: k in r <==> k in order && groups[k] != []
    ensures Distinct(order) ==> Distinct(r)
    ensures Subsequence(r, order)
  {
    if order == [] then []
    else
      var rest := NonEmptyNames(order[1..], groups);
      if groups[order[0]] != [] then [order[0]] + rest
      else
        assert rest == [] || rest[0] != order[0];
        rest
  }

  /** `{cat: items for cat, items in categories.items() if items}` */
  function DropEmpty(c: Categories): (r: Categories)
    requires Valid(c)
    ensures Valid(r)
    ensures forall k :: k in r.groups <==> k in c.groups && c.groups[k] != []
    ensures forall k :: k in r.groups ==> r.groups[k] == c.groups[k]
    ensures Subsequence(r.order, c.order)
  {
    Categories(NonEmptyNames(c.order, c.groups),
               map k | k in c.groups && c.groups[k] != [] :: c.groups[k])
  }

  /**
   * The parsed catalogue: every category it keeps has entries, no two
   * entries of a category share a ticker, and every entry has a ticker and
   * a company name.
   */
  ghost predicate WellFormedCatalogue(c: Categories)
  {
    && Valid(c)
    && (forall k :: k in c.groups ==> c.groups[k] != [] && UniqueTickers(c.groups[k]))
    && (forall k, i :: k in c.groups && 0 <= i < |c.groups[k]| ==>
          c.groups[k][i].ticker != "" && c.groups[k][i].companyName != "")
  }

  /** Dropping the empty categories of a consistent scan leaves a well-formed catalogue. */
  lemma DropEmptyWellFormed(st: ScanState)
    requires Consistent(st.cats, st.current)
    ensures WellFormedCatalogue(DropEmpty(st.cats))
  {
  }

  /**
   * `parse_categories_and_tickers`: `file` holds the lines of the catalogue
   * file, or `None` when the file does not exist, which gives `None`.
   */
  method ParseCategoriesAndTickers(file: Option<seq<string>>, extract: Extractor) returns (cats: Option<Categories>)
    ensures cats.None? <==> file.None?
    ensures file.Some? ==> cats == Some(DropEmpty(ScanLines(file.value, extract).cats))
    ensures cats.Some? ==> WellFormedCatalogue(cats.value)
  {
    if file.None? {
      return None;
    }
    var lines := file.value;
    var order: seq<string> := [];
    var categories: map<string, seq<Entry>> := map[];
    var current: Option<string> := None;
    for i := 0 to |lines|
      invariant ScanState(Categories(order, categories), current) == ScanLines(lines[..i], extract)
    {
      ghost var before := ScanState(Categories(order, categories), current);
      PrefixSnoc(lines, i);
      ScanLinesSnoc(lines[..i], lines[i], extract);
      var lineStrip := Strip(lines[i]);
      if StartsWith(lineStrip, "## ") {
        var name := Strip(lineStrip[3..]);
        if name !in categories {
          order := order + [name];
        }
        categories := categories[name := []];
        current := Some(name);
        assert Categories(order, categories) == Put(before.cats, name, []);
      } else if StartsWith(lineStrip, "|") && current.Some? && current.value != ""
                && !StartsWith(lineStrip, "|--") {
        assert IsRowUnderHeader(lineStrip, current);
        var parts := Cells(lineStrip);
        if |parts| >= 2 {
          var companyTickerPart := parts[0];
          var industryPart := parts[1];
          var found := extract(companyTickerPart);
          if found.Some? {
            var (ticker, companyName) := found.value;
            if ticker != "" && companyName != "" {
              assert RowEntry(lineStrip, extract) == Some(Entry(ticker, companyName, industryPart));
              if !HasTicker(categories[current.value], ticker) {
                categories := categories[current.value :=
                  categories[current.value] + [Entry(ticker, companyName, industryPart)]];
              }
            } else {
              assert RowEntry(lineStrip, extract) == None;
            }
          } else {
            assert RowEntry(lineStrip, extract) == None;
          }
        } else {
          assert RowEntry(lineStrip, extract) == None;
        }
      }
    }
    PrefixAll(lines);
    DropEmptyWellFormed(ScanLines(lines, extract));
    cats := Some(DropEmpty(Categories(order, categories)));
  }
}
