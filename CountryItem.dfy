/** One row of the country list, `DemoCountryItem`
    (src/demo-country-item/demo-country-item.js): it shows the label with the filter
    highlighted and tells the flag cache about its country's flag, once per country. */
module CountryItem {
  import opened Text
  import opened Countries

  const HighlightOpen: string := "<span part=\"highlighted\">"
  const HighlightClose: string := "</span>"

  /** `_updateLabel`: the markup for a label under the (already lower-cased) filter.
      With no filter, or when the filter does not occur in the lower-cased label, the
      label itself; otherwise the first occurrence wrapped in a highlight span. */
  function Highlight(text: string, filter: Option<string>): (html: string)
    ensures html == text || |html| == |text| + |HighlightOpen| + |HighlightClose|
  {
    if filter.None? || filter.value == "" then text
    else
      var f := filter.value;
      var index := IndexOf(LowerStr(text), f);
      if index == -1 then text
      else text[..index] + HighlightOpen + text[index..index + |f|] + HighlightClose + text[index + |f|..]
  }

  /** Without a filter the label is shown as it is. */
  lemma HighlightNoFilter(text: string, filter: Option<string>)
    requires filter.None? || filter == Some("")
    ensures Highlight(text, filter) == text
  {
  }

  /** When the filter does not occur in the lower-cased label, the label is shown as
      it is. */
  lemma HighlightNoMatch(text: string, f: string)
    requires forall i :: !OccursAt(LowerStr(text), f, i)
    ensures Highlight(text, Some(f)) == text
  {
  }

  /** `html` is `text` split around the FIRST occurrence `i` of `f` in the lower-cased
      text, with that segment wrapped in the highlight tags. The segment keeps the
      label's own casing, has the filter's length and matches the filter ignoring
      case, and removing the two tags gives back the label. */
  ghost predicate HighlightedAtFirst(text: string, f: string, i: int, html: string)
  {
    OccursAt(LowerStr(text), f, i) &&
    (forall j :: 0 <= j < i ==> !OccursAt(LowerStr(text), f, j)) &&
    LowerStr(text[i..i + |f|]) == f &&
    text[..i] + text[i..i + |f|] + text[i + |f|..] == text &&
    html == text[..i] + HighlightOpen + text[i..i + |f|] + HighlightClose + text[i + |f|..]
  }

  /** When the filter occurs in the lower-cased label, the markup highlights its first
      occurrence. */
  lemma HighlightFirstMatch(text: string, f: string)
    requires f != ""
    requires exists i :: OccursAt(LowerStr(text), f, i)
    ensures exists i :: HighlightedAtFirst(text, f, i, Highlight(text, Some(f)))
  {
    var index := IndexOf(LowerStr(text), f);
    LowerSlice(text, index, index + |f|);
    assert text[..index] + text[index..index + |f|] + text[index + |f|..] == text;
    assert HighlightedAtFirst(text, f, index, Highlight(text, Some(f)));
  }

  /** A label with a highlight is exactly the two tags longer than the label. */
  lemma HighlightLength(text: string, f: string)
    requires f != ""
    ensures (exists i :: OccursAt(LowerStr(text), f, i)) <==>
      |Highlight(text, Some(f))| == |text| + |HighlightOpen| + |HighlightClose|
  {
  }

  /** The view of one country. */
  class DemoCountryItem {
    /** The bound country object, shared with the lists that show it; `null` before binding. */
    var data: CountryRecord?
    /** The filter text the application passes down; `None` before a filter has run. */
    var textFilter: Option<string>
    /** The flag image source shown beside the label. */
    var img: Option<string>
    /** The label markup last written into the view. */
    var labelHtml: string

    constructor (data: CountryRecord?, textFilter: Option<string>)
      ensures this.data == data && this.textFilter == textFilter
      ensures img == None && labelHtml == ""
    {
      this.data, this.textFilter := data, textFilter;
      img, labelHtml := None, "";
    }

    /** `_dataChangedHandler`: with no data nothing happens. Otherwise the label and
        the image are refreshed and, if the shared country object is not yet stamped,
        the flag signal `{imgSrc, code}` is emitted and the object stamped. */
    method DataChanged() returns (signal: Option<FlagRequest>)
      modifies this, data
      ensures data == old(data) && textFilter == old(textFilter)
      ensures old(data) == null ==> signal == None && img == old(img) && labelHtml == old(labelHtml)
      ensures old(data) != null ==>
        labelHtml == Highlight(data.labelText, textFilter) &&
        img == Some(data.imgSrc) &&
        data.meta &&
        signal == (if old(data.meta) then None else Some(FlagRequest(data.imgSrc, data.code)))
    {
      if data == null {
        signal := None;
        return;
      }
      var item := data;
      labelHtml := Highlight(item.labelText, textFilter);
      img := Some(item.imgSrc);
      signal := None;
      if !item.meta {
        signal := Some(FlagRequest(item.imgSrc, item.code));
        item.meta := true;
      }
    }
  }

  /** The same country shown twice, as the main list and the selected list do, or
      shown again after a filter hid it: only the first showing signals its flag. */
  method SignalOncePerCountry(c: CountryRecord, f1: Option<string>, f2: Option<string>)
    returns (s1: Option<FlagRequest>, s2: Option<FlagRequest>, s3: Option<FlagRequest>)
    requires !c.meta
    modifies c
    ensures s1 == Some(FlagRequest(c.imgSrc, c.code)) && s2 == None && s3 == None
    ensures c.meta
  {
    var first := new DemoCountryItem(c, f1);
    var second := new DemoCountryItem(c, f2);
    s1 := first.DataChanged();
    s2 := second.DataChanged();
    s3 := first.DataChanged();
  }
}
