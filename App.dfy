/** The application shell `DemoApp` (src/demo-app/demo-app.js): it holds the country
    list, filters it by the text typed into the input, and derives the presentation
    strings of the two lists. */
module App {
  import opened Text
  import opened RegexFilter
  import opened Countries
  import opened CountryItem

  /** `xs` is `ys` with some elements left out, the rest in their original order. */
  predicate IsSubsequence<T(==)>(xs: seq<T>, ys: seq<T>)
    decreases |ys|
  {
    if xs == [] then true
    else if ys == [] then false
    else (xs[0] == ys[0] && IsSubsequence(xs[1..], ys[1..])) || IsSubsequence(xs, ys[1..])
  }

  lemma {:induction false} SubsequenceReflexive<T>(xs: seq<T>)
    ensures IsSubsequence(xs, xs)
  {
    if xs != [] {
      SubsequenceReflexive(xs[1..]);
    }
  }

  /** `countryData.filter(item => re.test(item.label))`. */
  function Filter(cs: seq<CountryRecord>, lits: string): (r: seq<CountryRecord>)
    ensures |r| <= |cs|
    ensures forall c :: c in r ==> c in cs && Test(lits, c.labelText)
  {
    if cs == [] then []
    else (if Test(lits, cs[0].labelText) then [cs[0]] else []) + Filter(cs[1..], lits)
  }

  /** The countries whose label contains `filter` ignoring case, in list order: what
      the filter is meant to keep, stated without regular expressions. */
  ghost function Matching(cs: seq<CountryRecord>, filter: string): seq<CountryRecord>
  {
    if cs == [] then []
    else (if ContainsIgnoringCase(cs[0].labelText, filter) then [cs[0]] else []) + Matching(cs[1..], filter)
  }

  /** Filtering with the escaped, compiled filter keeps exactly the countries whose
      label contains the filter text literally, ignoring case. */
  lemma {:induction false} FilterIsLiteralMatch(cs: seq<CountryRecord>, filter: string)
    ensures Compile(Escape(filter)).Some?
    ensures Filter(cs, Compile(Escape(filter)).value) == Matching(cs, filter)
  {
    CompileEscape(filter);
    if cs != [] {
      FilterTestIsLiteralSubstring(filter, cs[0].labelText);
      FilterIsLiteralMatch(cs[1..], filter);
    }
  }

  /** The filtered list is an order-preserving subsequence of the country list. */
  lemma {:induction false} FilterIsSubsequence(cs: seq<CountryRecord>, lits: string)
    ensures IsSubsequence(Filter(cs, lits), cs)
  {
    if cs != [] {
      FilterIsSubsequence(cs[1..], lits);
      var rest := Filter(cs[1..], lits);
      if Test(lits, cs[0].labelText) {
        assert Filter(cs, lits) == [cs[0]] + rest;
        assert ([cs[0]] + rest)[1..] == rest;
      } else {
        assert Filter(cs, lits) == rest;
      }
    }
  }

  /** A country is kept if and only if it is in the list and its label passes the test. */
  lemma {:induction false} FilterMembership(cs: seq<CountryRecord>, lits: string, c: CountryRecord)
    ensures c in Filter(cs, lits) <==> c in cs && Test(lits, c.labelText)
  {
    if cs != [] {
      FilterMembership(cs[1..], lits, c);
      assert cs == [cs[0]] + cs[1..];
    }
  }

  /** The empty filter keeps every country, in order. */
  lemma {:induction false} EmptyFilterKeepsAll(cs: seq<CountryRecord>)
    ensures Compile(Escape("")).Some?
    ensures Filter(cs, Compile(Escape("")).value) == cs
  {
    EmptyFilterMatchesAll("");
    if cs != [] {
      EmptyFilterMatchesAll(cs[0].labelText);
      EmptyFilterKeepsAll(cs[1..]);
      assert cs == [cs[0]] + cs[1..];
    }
  }

  /** Every country a non-empty filter keeps is shown with a highlight, given the
      lower-cased filter text that the application passes to its list items. */
  lemma KeptCountriesAreHighlighted(cs: seq<CountryRecord>, filter: string, c: CountryRecord)
    requires filter != ""
    requires c in Matching(cs, filter)
    ensures |Highlight(c.labelText, Some(LowerStr(filter)))| ==
      |c.labelText| + |HighlightOpen| + |HighlightClose|
    ensures exists i :: HighlightedAtFirst(c.labelText, LowerStr(filter), i, Highlight(c.labelText, Some(LowerStr(filter))))
  {
    FilterIsLiteralMatch(cs, filter);
    var lits := Compile(Escape(filter)).value;
    FilterMembership(cs, lits, c);
    FilterTestIsLiteralSubstring(filter, c.labelText);
    LowerIdempotent(filter);
    HighlightLength(c.labelText, LowerStr(filter));
    HighlightFirstMatch(c.labelText, LowerStr(filter));
  }

  /** `_getSelectedHeader`: the heading of the selected list for `len` selections. */
  function SelectedHeader(len: nat): (h: string)
    ensures |h| >= 16 && h[..9] == "Selected "
  {
    "Selected " + (if len >= 1 then (if len == 1 then "Country" else "Countries(" + Decimal(len) + ")") else "Countries")
  }

  /** The heading is "Selected Countries" for none, "Selected Country" for one, and
      "Selected Countries(n)" for n > 1, where n is read back from the heading. */
  lemma SelectedHeaderCases(len: nat)
    ensures len == 0 ==> SelectedHeader(len) == "Selected Countries"
    ensures len == 1 ==> SelectedHeader(len) == "Selected Country"
    ensures len > 1 ==>
      var h := SelectedHeader(len);
      |h| > 20 && h[..19] == "Selected Countries(" && h[|h| - 1] == ')' &&
      h[19..|h| - 1] == Decimal(len) &&
      (forall i :: 19 <= i < |h| - 1 ==> IsDigit(h[i])) &&
      DecimalValue(h[19..|h| - 1]) == len
  {
    if len > 1 {
      var h := SelectedHeader(len);
      assert h == "Selected Countries(" + Decimal(len) + ")";
      assert h[19..|h| - 1] == Decimal(len);
      DecimalRoundTrip(len);
    }
  }

  /** Different numbers of selected countries always give different headings. */
  lemma SelectedHeaderInjective(a: nat, b: nat)
    ensures SelectedHeader(a) == SelectedHeader(b) ==> a == b
  {
    if SelectedHeader(a) == SelectedHeader(b) && a > 1 && b > 1 {
      var h := SelectedHeader(a);
      assert h == "Selected Countries(" + Decimal(a) + ")";
      assert h == "Selected Countries(" + Decimal(b) + ")";
      assert h[19..|h| - 1] == Decimal(a);
      assert h[19..|h| - 1] == Decimal(b);
      DecimalInjective(a, b);
    }
  }

  /** `_computedClass`: the class attribute of a list item. */
  function ComputedClass(isSelected: bool): (classes: string)
    ensures |classes| >= 4 && classes[..4] == "item"
    ensures isSelected <==> |classes| > 4
  {
    "item" + (if isSelected then " selected" else "")
  }

  /** The space-separated class names of a class attribute. */
  function ClassNames(s: string): seq<string>
    decreases |s|
  {
    var i := IndexOf(s, " ");
    if i == -1 then (if s == "" then [] else [s])
    else (if i == 0 then [] else [s[..i]]) + ClassNames(s[i + 1..])
  }

  /** Every item carries the class `item`, and the class `selected` exactly when it is
      selected. */
  lemma ComputedClassNames(isSelected: bool)
    ensures ClassNames(ComputedClass(isSelected)) == if isSelected then ["item", "selected"] else ["item"]
  {
    if isSelected {
      var s := ComputedClass(true);
      assert s == "item selected";
      assert OccursAt(s, " ", 4);
      CharAbsent(s, ' ', 0, 4);
      assert IndexOf(s, " ") == 4;
      assert s[..4] == "item" && s[5..] == "selected";
      CharAbsent("selected", ' ', 0, 8);
      assert IndexOf("selected", " ") == -1;
    } else {
      var s := ComputedClass(false);
      assert s == "item";
      CharAbsent(s, ' ', 0, 4);
      assert IndexOf(s, " ") == -1;
    }
  }

  class DemoApp {
    /** The country list bound from `DemoCountries`. */
    var countryData: seq<CountryRecord>
    /** The list the main view shows. */
    var filteredCountries: seq<CountryRecord>
    /** The lower-cased filter last applied; `None` until a filter has run. */
    var filterValue: Option<string>
    /** Bumped on every filter run so that list items re-derive their markup. */
    var renderTracker: nat

    /** The shown list never holds a country outside the country list, nor
        reorders it. */
    ghost predicate Valid()
      reads this
    {
      IsSubsequence(filteredCountries, countryData)
    }

    constructor ()
      ensures Valid()
      ensures countryData == [] && filteredCountries == []
      ensures filterValue == None && renderTracker == 0
    {
      countryData, filteredCountries := [], [];
      filterValue, renderTracker := None, 0;
    }

    /** The `countryData` binding and its observer `_countryDataHandler`: the new list
        is shown unfiltered, whatever filter was applied before. */
    method CountryDataChanged(data: seq<CountryRecord>)
      modifies this
      ensures Valid()
      ensures countryData == data && filteredCountries == data
      ensures filterValue == old(filterValue) && renderTracker == old(renderTracker)
    {
      countryData := data;
      filteredCountries := countryData;
      SubsequenceReflexive(countryData);
    }

    /** `_runFilter`: keep the countries whose label contains `val` literally,
        ignoring case, remember the lower-cased filter and bump the render counter. */
    method RunFilter(val: string)
      requires Valid()
      modifies this
      ensures Valid()
      ensures filteredCountries == Matching(countryData, val)
      ensures forall c :: c in filteredCountries <==> c in countryData && ContainsIgnoringCase(c.labelText, val)
      ensures filterValue == Some(LowerStr(val))
      ensures renderTracker == old(renderTracker) + 1
      ensures countryData == old(countryData)
    {
      CompileEscape(val);
      var filterRegExp := Compile(Escape(val)).value;
      filterValue := Some(LowerStr(val));
      filteredCountries := Filter(countryData, filterRegExp);
      renderTracker := renderTracker + 1;
      FilterIsSubsequence(countryData, filterRegExp);
      FilterIsLiteralMatch(countryData, val);
      forall c | true
        ensures c in filteredCountries <==> c in countryData && ContainsIgnoringCase(c.labelText, val)
      {
        FilterMembership(countryData, filterRegExp, c);
        FilterTestIsLiteralSubstring(val, c.labelText);
      }
    }
  }

  /** Clearing the filter brings back the whole list in its original order. */
  method ClearFilterRestoresList(app: DemoApp)
    requires app.Valid()
    modifies app
    ensures app.countryData == old(app.countryData) && app.filteredCountries == app.countryData
  {
    app.RunFilter("");
    EmptyFilterKeepsAll(app.countryData);
    FilterIsLiteralMatch(app.countryData, "");
  }

  /** France and Germany both contain an "r", so the filter "r" keeps both; "F"
      keeps only France, and clearing the filter restores both in order. */
  method FranceGermanyScenario() returns (withR: seq<string>, withF: seq<string>, cleared: seq<string>)
    ensures withR == ["France", "Germany"] && withF == ["France"] && cleared == withR
  {
    var fr := new CountryRecord("France", "fr", FlagPath("fr"));
    var de := new CountryRecord("Germany", "de", FlagPath("de"));
    var app := new DemoApp();
    app.CountryDataChanged([fr, de]);
    assert [fr, de][1..] == [de] && [de][1..] == [];
    app.RunFilter("r");
    assert OccursAt(LowerStr("France"), LowerStr("r"), 1);
    assert OccursAt(LowerStr("Germany"), LowerStr("r"), 2);
    assert Matching([de], "r") == [de] + Matching([], "r");
    assert Matching([fr, de], "r") == [fr] + Matching([de], "r");
    assert app.filteredCountries == [fr, de];
    withR := Labels(app.filteredCountries);
    app.RunFilter("F");
    assert OccursAt(LowerStr("France"), LowerStr("F"), 0);
    assert LowerStr("Germany") == "germany" && LowerStr("F") == "f";
    CharAbsent("germany", 'f', 0, 7);
    assert !ContainsIgnoringCase(de.labelText, "F");
    assert Matching([de], "F") == [];
    assert Matching([fr, de], "F") == [fr] + Matching([de], "F");
    assert app.filteredCountries == [fr];
    assert app.filterValue == Some("f") && app.renderTracker == 2;
    withF := Labels(app.filteredCountries);
    ClearFilterRestoresList(app);
    assert app.filteredCountries == [fr, de];
    cleared := Labels(app.filteredCountries);
  }

  /** The labels of a country list, in order. */
  function Labels(cs: seq<CountryRecord>): (r: seq<string>)
    ensures |r| == |cs| && forall i :: 0 <= i < |cs| ==> r[i] == cs[i].labelText
  {
    seq(|cs|, i requires 0 <= i < |cs| => cs[i].labelText)
  }
}
