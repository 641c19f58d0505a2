/**
 * The filter panel: a local copy of the dashboard's filters, edited one
 * key at a time or reset, and reported to the dashboard after each edit.
 */
module FilterControls {
  import opened Records
  import App

  /** One input's change: the key it sets and the value (already parsed for the selects). */
  datatype FilterEdit =
    | SetType(text: string)
    | SetMinConfidence(min: real)
    | SetMaxConfidence(max: real)
    | SetShowLowConfidence(on: bool)

  /** `{ ...localFilters, [key]: value }`. */
  function WithField(f: Filters, edit: FilterEdit): (r: Filters)
    ensures r.labelType == (if edit.SetType? then edit.text else f.labelType)
    ensures r.minConfidence == (if edit.SetMinConfidence? then edit.min else f.minConfidence)
    ensures r.maxConfidence == (if edit.SetMaxConfidence? then edit.max else f.maxConfidence)
    ensures r.showLowConfidence == (if edit.SetShowLowConfidence? then edit.on else f.showLowConfidence)
  {
    match edit
    case SetType(text) => f.(labelType := text)
    case SetMinConfidence(min) => f.(minConfidence := min)
    case SetMaxConfidence(max) => f.(maxConfidence := max)
    case SetShowLowConfidence(on) => f.(showLowConfidence := on)
  }

  /** The same edit as a one-key patch of the dashboard's merge. */
  function AsPatch(edit: FilterEdit): App.FilterPatch {
    match edit
    case SetType(text) => App.FilterPatch(Some(text), None, None, None)
    case SetMinConfidence(min) => App.FilterPatch(None, Some(min), None, None)
    case SetMaxConfidence(max) => App.FilterPatch(None, None, Some(max), None)
    case SetShowLowConfidence(on) => App.FilterPatch(None, None, None, Some(on))
  }

  /** Setting one key locally agrees with merging that one key into the same filters. */
  lemma WithFieldIsOneKeyMerge(f: Filters, edit: FilterEdit)
    ensures WithField(f, edit) == App.Merge(f, AsPatch(edit))
  {
  }

  /** Setting a key twice keeps only the second value. */
  lemma WithFieldOverwrites(f: Filters, first: FilterEdit, second: FilterEdit)
    requires first.SetType? == second.SetType? && first.SetMinConfidence? == second.SetMinConfidence?
    requires first.SetMaxConfidence? == second.SetMaxConfidence?
    ensures WithField(WithField(f, first), second) == WithField(f, second)
  {
  }

  /** hasActiveFilters: any setting that narrows the list. */
  predicate HasActiveFilters(f: Filters) {
    f.labelType != "" || f.minConfidence > 0.0 || f.maxConfidence < 1.0 || f.showLowConfidence
  }

  /** Within the selectable range [0, 1], "no active filter" means exactly the defaults. */
  lemma InactiveIffDefault(f: Filters)
    requires 0.0 <= f.minConfidence <= 1.0 && 0.0 <= f.maxConfidence <= 1.0
    ensures !HasActiveFilters(f) <==> f == DefaultFilters
  {
  }

  /** With no active filter the dashboard shows every well-formed document. */
  lemma InactiveFiltersShowAll(docs: seq<Document>, f: Filters)
    requires !HasActiveFilters(f)
    requires forall i :: 0 <= i < |docs| ==> App.WellFormed(docs[i])
    ensures App.FilterDocuments(docs, f) == docs
  {
    App.InactiveFiltersKeepWellFormed(docs, f);
  }

  class Controls {
    var localFilters: Filters

    constructor (filters: Filters)
      ensures localFilters == filters
    {
      localFilters := filters;
    }

    /** The effect that copies the dashboard's filters in whenever they change. */
    method Receive(filters: Filters)
      modifies this
      ensures localFilters == filters
    {
      localFilters := filters;
    }

    /** handleInputChange: one key set locally, and the whole object reported. */
    method HandleInputChange(edit: FilterEdit) returns (sent: Filters)
      modifies this
      ensures localFilters == WithField(old(localFilters), edit)
      ensures sent == localFilters
    {
      var newFilters := WithField(localFilters, edit);
      localFilters := newFilters;
      sent := newFilters;
    }

    /** handleReset: the defaults, locally and reported. */
    method HandleReset() returns (sent: Filters)
      modifies this
      ensures localFilters == DefaultFilters && sent == DefaultFilters
      ensures !HasActiveFilters(localFilters)
    {
      localFilters := DefaultFilters;
      sent := DefaultFilters;
    }
  }

  /** The reported object replaces the dashboard's filters outright, for an edit and for a reset. */
  lemma ReportedFiltersReplaceDashboard(prev: Filters, local: Filters, edit: FilterEdit)
    ensures App.Merge(prev, App.FullPatch(WithField(local, edit))) == WithField(local, edit)
    ensures App.Merge(prev, App.FullPatch(DefaultFilters)) == DefaultFilters
    ensures !HasActiveFilters(DefaultFilters)
  {
    App.MergeFullPatch(prev, WithField(local, edit));
    App.MergeFullPatch(prev, DefaultFilters);
  }
}
