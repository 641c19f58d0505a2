/**
 * The dashboard: the document list, the three AND-ed filters over it,
 * the low-confidence counter, and the handlers that replace a document
 * with the backend's reply and keep the single undo notification.
 *
 * Remote calls are not made here: each handler takes the backend's
 * reply (success with its data, or failure) as a parameter.
 */
module App {
  import opened Records
  import Api
  import Text

  // ----- generic filtering -----

  /** `r` is `s` with some elements deleted, the others kept in order. */
  predicate IsSubsequence<T(==)>(r: seq<T>, s: seq<T>)
    decreases |s|
  {
    if r == [] then true
    else if s == [] then false
    else if r[0] == s[0] then IsSubsequence(r[1..], s[1..])
    else IsSubsequence(r, s[1..])
  }

  /** JavaScript's `filter`: the elements satisfying `p`, in their order. */
  function Filter<T(==)>(s: seq<T>, p: T -> bool): (r: seq<T>)
    ensures |r| <= |s|
    ensures IsSubsequence(r, s)
    ensures forall x :: x in r ==> x in s && p(x)
    ensures forall i :: 0 <= i < |s| && p(s[i]) ==> s[i] in r
    decreases |s|
  {
    if s == [] then []
    else
      var rest := Filter(s[1..], p);
      assert forall x :: x in s[1..] ==> x in s;
      if p(s[0]) then
        assert ([s[0]] + rest)[1..] == rest;
        [s[0]] + rest
      else
        SubsequenceOfTail(rest, s);
        rest
  }

  lemma {:induction false} SubsequenceOfTail<T>(r: seq<T>, s: seq<T>)
    requires s != [] && IsSubsequence(r, s[1..])
    ensures IsSubsequence(r, s)
    decreases |s|, 0
  {
    if r != [] && r[0] == s[0] {
      SubsequenceOfSuffix(r, s[1..]);
    }
  }

  lemma {:induction false} SubsequenceOfSuffix<T>(r: seq<T>, s: seq<T>)
    requires r != [] && IsSubsequence(r, s)
    ensures IsSubsequence(r[1..], s)
    decreases |s|, 1
  {
    if r[0] == s[0] {
      SubsequenceOfTail(r[1..], s);
    } else {
      SubsequenceOfSuffix(r, s[1..]);
      SubsequenceOfTail(r[1..], s);
    }
  }

  lemma {:induction false} FilterKeepsAll<T>(s: seq<T>, p: T -> bool)
    requires forall i :: 0 <= i < |s| ==> p(s[i])
    ensures Filter(s, p) == s
  {
    if s != [] {
      FilterKeepsAll(s[1..], p);
    }
  }

  lemma {:induction false} FilterCongruent<T>(s: seq<T>, p: T -> bool, q: T -> bool)
    requires forall i :: 0 <= i < |s| ==> p(s[i]) == q(s[i])
    ensures Filter(s, p) == Filter(s, q)
  {
    if s != [] {
      FilterCongruent(s[1..], p, q);
    }
  }

  /** Filtering twice is filtering once by the conjunction. */
  lemma {:induction false} FilterFilter<T>(s: seq<T>, p: T -> bool, q: T -> bool, pq: T -> bool)
    requires forall i :: 0 <= i < |s| ==> pq(s[i]) == (p(s[i]) && q(s[i]))
    ensures Filter(Filter(s, p), q) == Filter(s, pq)
  {
    if s != [] {
      FilterFilter(s[1..], p, q, pq);
      if p(s[0]) {
        assert ([s[0]] + Filter(s[1..], p))[1..] == Filter(s[1..], p);
      }
    }
  }

  /** Filtering keeps every copy of a satisfying element and no copy of any other. */
  lemma {:induction false} FilterMultiset<T>(s: seq<T>, p: T -> bool)
    ensures forall x :: multiset(Filter(s, p))[x] == if p(x) then multiset(s)[x] else 0
    decreases |s|
  {
    if s != [] {
      FilterMultiset(s[1..], p);
      assert s == [s[0]] + s[1..];
    }
  }

  /** What a filter drops is exactly what the opposite filter keeps. */
  lemma {:induction false} FilterComplementCount<T>(s: seq<T>, p: T -> bool, q: T -> bool)
    requires forall i :: 0 <= i < |s| ==> q(s[i]) == !p(s[i])
    ensures |Filter(s, p)| + |Filter(s, q)| == |s|
    decreases |s|
  {
    if s != [] {
      FilterComplementCount(s[1..], p, q);
    }
  }

  // ----- the three filter predicates -----

  /** `Math.max` over the scores; the maximum of nothing is minus infinity. */
  datatype Extended = NegInfinity | Finite(value: real)

  function MaxScore(cs: seq<Classification>): (m: Extended)
    ensures m.NegInfinity? <==> |cs| == 0
    ensures m.Finite? ==> forall j :: 0 <= j < |cs| ==> cs[j].score <= m.value
    ensures m.Finite? ==> exists j :: 0 <= j < |cs| && cs[j].score == m.value
  {
    if cs == [] then NegInfinity
    else
      match MaxScore(cs[1..])
      case NegInfinity => Finite(cs[0].score)
      case Finite(v) =>
        assert forall j :: 1 <= j < |cs| ==> cs[j] == cs[1..][j - 1];
        Finite(if cs[0].score >= v then cs[0].score else v)
  }

  predicate AtLeast(m: Extended, x: real) { m.Finite? && m.value >= x }
  predicate AtMost(m: Extended, x: real) { m.NegInfinity? || m.value <= x }
  predicate Below(m: Extended, x: real) { m.NegInfinity? || m.value < x }

  /** The maximum the dashboard filters on is the primary classification's score. */
  lemma MaxScoreIsPrimaryScore(cs: seq<Classification>)
    requires |cs| > 0
    ensures MaxScore(cs) == Finite(Api.GetPrimaryClassification(cs).value.score)
  {
    var m := MaxScore(cs).value;
    var j :| 0 <= j < |cs| && cs[j].score == m;
    assert cs[j].score <= Api.GetPrimaryClassification(cs).value.score;
  }

  /** `some` label, lower-cased, contains the lower-cased type text. */
  function AnyLabelContains(cs: seq<Classification>, text: string): (r: bool)
    ensures r <==> exists j :: 0 <= j < |cs| && Text.Contains(Text.ToLower(cs[j].name), Text.ToLower(text))
  {
    if cs == [] then false
    else
      assert forall j :: 1 <= j < |cs| ==> cs[j] == cs[1..][j - 1];
      Text.Contains(Text.ToLower(cs[0].name), Text.ToLower(text)) || AnyLabelContains(cs[1..], text)
  }

  predicate TypeMatches(d: Document, f: Filters) {
    f.labelType == "" || AnyLabelContains(d.classifications, f.labelType)
  }

  predicate InConfidenceRange(d: Document, f: Filters) {
    var m := MaxScore(d.classifications);
    AtLeast(m, f.minConfidence) && AtMost(m, f.maxConfidence)
  }

  predicate IsBelowLowConfidence(d: Document) {
    Below(MaxScore(d.classifications), Api.LowConfidenceThreshold)
  }

  predicate LowConfidenceMatches(d: Document, f: Filters) {
    !f.showLowConfidence || IsBelowLowConfidence(d)
  }

  /** The conjunction a document must satisfy to be shown. */
  predicate Passes(d: Document, f: Filters) {
    TypeMatches(d, f) && InConfidenceRange(d, f) && LowConfidenceMatches(d, f)
  }

  /** The range test is on the primary classification's score; a document without labels fails it. */
  lemma InConfidenceRangeIsPrimaryInRange(d: Document, f: Filters)
    ensures d.classifications == [] ==> !InConfidenceRange(d, f)
    ensures d.classifications != [] ==>
              (InConfidenceRange(d, f) <==>
               f.minConfidence <= Api.GetPrimaryClassification(d.classifications).value.score <= f.maxConfidence)
  {
    if d.classifications != [] {
      MaxScoreIsPrimaryScore(d.classifications);
    }
  }

  /** With the checkbox on, only unlabelled documents and those whose best score is below 0.7 pass. */
  lemma LowConfidenceMatchesIsBelowThreshold(d: Document, f: Filters)
    requires f.showLowConfidence
    ensures LowConfidenceMatches(d, f) <==>
              d.classifications == [] ||
              Api.GetPrimaryClassification(d.classifications).value.score < Api.LowConfidenceThreshold
  {
    if d.classifications != [] {
      MaxScoreIsPrimaryScore(d.classifications);
    }
  }

  function Passing(f: Filters): Document -> bool {
    d => Passes(d, f)
  }

  /** What applyFilters computes: the documents passing all three tests, in order. */
  function FilterDocuments(docs: seq<Document>, f: Filters): (r: seq<Document>)
    ensures IsSubsequence(r, docs)
    ensures forall d :: d in r <==> d in docs && Passes(d, f)
    ensures forall d :: multiset(r)[d] == if Passes(d, f) then multiset(docs)[d] else 0
  {
    FilterMultiset(docs, Passing(f));
    Filter(docs, Passing(f))
  }

  /** A document without classifications never passes: minus infinity is below any minimum. */
  lemma EmptyDocumentExcluded(d: Document, f: Filters)
    requires d.classifications == []
    ensures !Passes(d, f)
  {
  }

  /** The type test looks at every label, not only the primary one. */
  lemma TypeMatchesAnyLabel(d: Document, f: Filters, j: nat)
    requires j < |d.classifications|
    requires Text.Contains(Text.ToLower(d.classifications[j].name), Text.ToLower(f.labelType))
    ensures TypeMatches(d, f)
  {
  }

  /** A document whose only Medical label is not its primary one still matches "Medical". */
  lemma NonPrimaryLabelMatches(id: DocumentId, name: string)
    ensures var d := Document(id, name, [Classification("Legal", 0.8), Classification("Medical", 0.2)], false, 0);
            Api.GetPrimaryClassification(d.classifications).value.name == "Legal" &&
            TypeMatches(d, Filters("Medical", 0.0, 1.0, false))
  {
    var d := Document(id, name, [Classification("Legal", 0.8), Classification("Medical", 0.2)], false, 0);
    Api.PrimaryIsFirstMaximum(d.classifications, 0);
    Text.ContainsItself(Text.ToLower("Medical"));
    TypeMatchesAnyLabel(d, Filters("Medical", 0.0, 1.0, false), 1);
  }

  /** Every document with scores in [0, 1] and at least one label passes the inactive filters. */
  predicate WellFormed(d: Document) {
    |d.classifications| > 0 &&
    forall j :: 0 <= j < |d.classifications| ==> 0.0 <= d.classifications[j].score <= 1.0
  }

  lemma {:induction false} InactiveFiltersKeepWellFormed(docs: seq<Document>, f: Filters)
    requires f.labelType == "" && f.minConfidence <= 0.0 && f.maxConfidence >= 1.0 && !f.showLowConfidence
    requires forall i :: 0 <= i < |docs| ==> WellFormed(docs[i])
    ensures FilterDocuments(docs, f) == docs
  {
    forall i | 0 <= i < |docs| ensures Passing(f)(docs[i]) {
      var m := MaxScore(docs[i].classifications).value;
      var j :| 0 <= j < |docs[i].classifications| && docs[i].classifications[j].score == m;
    }
    FilterKeepsAll(docs, Passing(f));
  }

  /** The default filters are the identity on well-formed documents. */
  lemma DefaultFiltersIdentity(docs: seq<Document>)
    requires forall i :: 0 <= i < |docs| ==> WellFormed(docs[i])
    ensures FilterDocuments(docs, DefaultFilters) == docs
  {
    InactiveFiltersKeepWellFormed(docs, DefaultFilters);
  }

  // ----- counting -----

  /** getLowConfidenceCount: documents whose maximum score is below 0.7. */
  function LowConfidenceCount(docs: seq<Document>): (r: nat)
    ensures r <= |docs|
    ensures forall i :: 0 <= i < |docs| && IsBelowLowConfidence(docs[i]) ==> r > 0
  {
    |Filter(docs, IsBelowLowConfidence)|
  }

  predicate FlaggedLow(d: Document) { Api.IsLowConfidence(d.classifications) }
  predicate Unclassified(d: Document) { d.classifications == [] }

  /**
   * The counter adds the documents without classifications to those the
   * table flags as low confidence: minus infinity is below 0.7.
   */
  lemma {:induction false} LowConfidenceCountSplits(docs: seq<Document>)
    ensures LowConfidenceCount(docs) == |Filter(docs, FlaggedLow)| + |Filter(docs, Unclassified)|
  {
    if docs != [] {
      LowConfidenceCountSplits(docs[1..]);
      var cs := docs[0].classifications;
      if cs != [] {
        MaxScoreIsPrimaryScore(cs);
      }
    }
  }

  predicate IsManuallyEdited(d: Document) { d.manuallyEdited }
  predicate NotManuallyEdited(d: Document) { !d.manuallyEdited }

  /**
   * The header's "Manually Edited" counter: together with the documents not
   * edited it makes up the total, so it is all of it or none of it at the extremes.
   */
  function ManuallyEditedCount(docs: seq<Document>): (r: nat)
    ensures r <= |docs|
    ensures r + |Filter(docs, NotManuallyEdited)| == |docs|
    ensures (forall i :: 0 <= i < |docs| ==> docs[i].manuallyEdited) ==> r == |docs|
    ensures (forall i :: 0 <= i < |docs| ==> !docs[i].manuallyEdited) ==> r == 0
  {
    var edited := Filter(docs, IsManuallyEdited);
    assert (forall i :: 0 <= i < |docs| ==> docs[i].manuallyEdited) ==> edited == docs by {
      if forall i :: 0 <= i < |docs| ==> docs[i].manuallyEdited {
        FilterKeepsAll(docs, IsManuallyEdited);
      }
    }
    assert (forall i :: 0 <= i < |docs| ==> !docs[i].manuallyEdited) ==> edited == [] by {
      if edited != [] {
        assert edited[0] in docs;
      }
    }
    FilterComplementCount(docs, IsManuallyEdited, NotManuallyEdited);
    |edited|
  }

  // ----- replacing documents -----

  /** `prev.map(doc => doc.id === id ? data : doc)`. */
  function ReplaceById(docs: seq<Document>, id: DocumentId, data: Document): (r: seq<Document>)
    ensures |r| == |docs|
    ensures forall i :: 0 <= i < |docs| && docs[i].id == id ==> r[i] == data
    ensures forall i :: 0 <= i < |docs| && docs[i].id != id ==> r[i] == docs[i]
  {
    if docs == [] then []
    else [if docs[0].id == id then data else docs[0]] + ReplaceById(docs[1..], id, data)
  }

  lemma ReplaceByIdIdempotent(docs: seq<Document>, id: DocumentId, data: Document)
    ensures ReplaceById(ReplaceById(docs, id, data), id, data) == ReplaceById(docs, id, data)
  {
  }

  /** No document carries the id: the reply is dropped and the list stays as it is. */
  lemma ReplaceMissingIdKeepsList(docs: seq<Document>, id: DocumentId, data: Document)
    requires forall i :: 0 <= i < |docs| ==> docs[i].id != id
    ensures ReplaceById(docs, id, data) == docs
  {
  }

  /** `documents.find(d => d.id === id)`. */
  function FindById(docs: seq<Document>, id: DocumentId): (r: Option<Document>)
    ensures r.None? <==> forall i :: 0 <= i < |docs| ==> docs[i].id != id
    ensures r.Some? ==> exists i :: 0 <= i < |docs| && docs[i] == r.value && docs[i].id == id &&
                           forall j :: 0 <= j < i ==> docs[j].id != id
  {
    if docs == [] then None
    else if docs[0].id == id then Some(docs[0])
    else
      var rest := FindById(docs[1..], id);
      assert forall i :: 1 <= i < |docs| ==> docs[i] == docs[1..][i - 1];
      assert rest.Some? ==> exists i :: 1 <= i < |docs| && docs[i] == rest.value && docs[i].id == id &&
                               forall j :: 0 <= j < i ==> docs[j].id != id by {
        if rest.Some? {
          var k :| 0 <= k < |docs| - 1 && docs[1..][k] == rest.value && docs[1..][k].id == id &&
                   forall j :: 0 <= j < k ==> docs[1..][j].id != id;
          assert forall j :: 1 <= j < k + 1 ==> docs[j] == docs[1..][j - 1];
          assert docs[k + 1] == rest.value;
        }
      }
      rest
  }

  /** The notification's name: the found document's name, or "Document" when it is missing or empty. */
  function DisplayName(docs: seq<Document>, id: DocumentId): (r: string)
    ensures r != ""
    ensures FindById(docs, id).Some? && FindById(docs, id).value.documentName != "" ==>
              r == FindById(docs, id).value.documentName
    ensures FindById(docs, id).Some? && FindById(docs, id).value.documentName == "" ==> r == "Document"
    ensures FindById(docs, id).None? ==> r == "Document"
  {
    match FindById(docs, id)
    case Some(d) => if d.documentName != "" then d.documentName else "Document"
    case None => "Document"
  }

  // ----- the dashboard state -----

  /** The undo slot: which document, its name, and when the edit was saved. */
  datatype UndoNote = UndoNote(documentId: DocumentId, documentName: string, timestamp: int)

  /** A partial filter object, merged with `{ ...prev, ...newFilters }`. */
  datatype FilterPatch = FilterPatch(
    labelType: Option<string>,
    minConfidence: Option<real>,
    maxConfidence: Option<real>,
    showLowConfidence: Option<bool>)

  function Pick<T>(o: Option<T>, fallback: T): T {
    match o
    case Some(v) => v
    case None => fallback
  }

  function Merge(prev: Filters, patch: FilterPatch): (r: Filters)
    ensures patch.labelType.Some? ==> r.labelType == patch.labelType.value
    ensures patch.labelType.None? ==> r.labelType == prev.labelType
    ensures patch.minConfidence.Some? ==> r.minConfidence == patch.minConfidence.value
    ensures patch.minConfidence.None? ==> r.minConfidence == prev.minConfidence
    ensures patch.maxConfidence.Some? ==> r.maxConfidence == patch.maxConfidence.value
    ensures patch.maxConfidence.None? ==> r.maxConfidence == prev.maxConfidence
    ensures patch.showLowConfidence.Some? ==> r.showLowConfidence == patch.showLowConfidence.value
    ensures patch.showLowConfidence.None? ==> r.showLowConfidence == prev.showLowConfidence
  {
    Filters(
      Pick(patch.labelType, prev.labelType),
      Pick(patch.minConfidence, prev.minConfidence),
      Pick(patch.maxConfidence, prev.maxConfidence),
      Pick(patch.showLowConfidence, prev.showLowConfidence))
  }

  /** The whole filter object as a patch: what the filter panel reports. */
  function FullPatch(f: Filters): FilterPatch {
    FilterPatch(Some(f.labelType), Some(f.minConfidence), Some(f.maxConfidence), Some(f.showLowConfidence))
  }

  /** Merging a complete filter object replaces the previous one outright. */
  lemma MergeFullPatch(prev: Filters, f: Filters)
    ensures Merge(prev, FullPatch(f)) == f
  {
  }

  datatype ListReply = Listed(data: seq<Document>) | FetchFailed
  datatype UpdateReply = Updated(data: Document, canUndo: bool) | SubmitFailed
  datatype UndoReply = Reverted(data: Document) | UndoFailed(message: string)

  const LoadError: string := "Failed to load documents"
  const UpdateError: string := "Failed to update classification"
  const UndoErrorPrefix: string := "Failed to undo changes: "

  class AppState {
    var documents: seq<Document>
    var filteredDocuments: seq<Document>
    var loading: bool
    var error: Option<string>
    var undoNotification: Option<UndoNote>
    var filters: Filters

    constructor ()
      ensures documents == [] && filteredDocuments == [] && loading
      ensures error == None && undoNotification == None && filters == DefaultFilters
    {
      documents, filteredDocuments, loading := [], [], true;
      error, undoNotification, filters := None, None, DefaultFilters;
    }

    /** The mount-time listing call, with the backend's reply as a parameter. */
    method LoadDocuments(reply: ListReply)
      modifies this`documents, this`error, this`loading
      ensures !loading
      ensures reply.Listed? ==> documents == reply.data && error == None
      ensures reply.FetchFailed? ==> documents == old(documents) && error == Some(LoadError)
    {
      loading := true;
      match reply {
        case Listed(data) =>
          documents := data;
          error := None;
        case FetchFailed =>
          error := Some(LoadError);
      }
      loading := false;
    }

    /** applyFilters: the three filters applied one after the other. */
    method ApplyFilters()
      modifies this`filteredDocuments
      ensures filteredDocuments == FilterDocuments(documents, filters)
    {
      var f := filters;
      var filtered := documents;
      if f.labelType != "" {
        var text := f.labelType;
        filtered := Filter(filtered, (d: Document) => AnyLabelContains(d.classifications, text));
      }
      var byType: Document -> bool := d => TypeMatches(d, f);
      if f.labelType != "" {
        FilterCongruent(documents, (d: Document) => AnyLabelContains(d.classifications, f.labelType), byType);
      } else {
        FilterKeepsAll(documents, byType);
      }
      assert filtered == Filter(documents, byType);

      filtered := Filter(filtered, d => InConfidenceRange(d, f));
      var byTypeAndRange: Document -> bool := d => TypeMatches(d, f) && InConfidenceRange(d, f);
      FilterFilter(documents, byType, d => InConfidenceRange(d, f), byTypeAndRange);

      if f.showLowConfidence {
        filtered := Filter(filtered, IsBelowLowConfidence);
        FilterFilter(documents, byTypeAndRange, IsBelowLowConfidence, Passing(f));
      } else {
        FilterCongruent(documents, byTypeAndRange, Passing(f));
      }
      filteredDocuments := filtered;
    }

    method HandleFilterChange(patch: FilterPatch)
      modifies this`filters
      ensures filters == Merge(old(filters), patch)
    {
      filters := Merge(filters, patch);
    }

    /**
     * handleUpdateClassification after the backend answered: on success the
     * documents with that id are replaced by the reply, and the undo slot is
     * overwritten when the reply allows undo; on failure only the error is set.
     * `newClassifications` is what was sent; it does not touch local state.
     */
    method HandleUpdateClassification(documentId: DocumentId, newClassifications: seq<Classification>,
                                      reply: UpdateReply, now: int) returns (ok: bool)
      modifies this`documents, this`undoNotification, this`error
      ensures ok == reply.Updated?
      ensures reply.Updated? ==>
                documents == ReplaceById(old(documents), documentId, reply.data) && error == old(error)
      ensures reply.Updated? && reply.canUndo ==>
                undoNotification == Some(UndoNote(documentId, DisplayName(old(documents), documentId), now))
      ensures reply.Updated? && !reply.canUndo ==> undoNotification == old(undoNotification)
      ensures reply.SubmitFailed? ==>
                documents == old(documents) && undoNotification == old(undoNotification) &&
                error == Some(UpdateError)
    {
      match reply
      case Updated(data, canUndo) =>
        var name := DisplayName(documents, documentId);
        documents := ReplaceById(documents, documentId, data);
        if canUndo {
          undoNotification := Some(UndoNote(documentId, name, now));
        }
        ok := true;
      case SubmitFailed =>
        error := Some(UpdateError);
        ok := false;
    }

    /**
     * handleUndo: nothing without a notification; otherwise the revert is
     * requested for the noted document. Success replaces it and clears the
     * notification and the error; failure sets the error and keeps both
     * the documents and the notification.
     */
    method HandleUndo(reply: UndoReply) returns (requested: Option<DocumentId>)
      modifies this`documents, this`undoNotification, this`error
      ensures old(undoNotification).None? ==>
                requested == None && documents == old(documents) &&
                undoNotification == None && error == old(error)
      ensures old(undoNotification).Some? ==> requested == Some(old(undoNotification).value.documentId)
      ensures old(undoNotification).Some? && reply.Reverted? ==>
                documents == ReplaceById(old(documents), old(undoNotification).value.documentId, reply.data) &&
                undoNotification == None && error == None
      ensures old(undoNotification).Some? && reply.UndoFailed? ==>
                documents == old(documents) && undoNotification == old(undoNotification) &&
                error == Some(UndoErrorPrefix + reply.message)
    {
      if undoNotification.None? {
        return None;
      }
      var note := undoNotification.value;
      requested := Some(note.documentId);
      match reply
      case Reverted(data) =>
        documents := ReplaceById(documents, note.documentId, data);
        undoNotification := None;
        error := None;
      case UndoFailed(message) =>
        error := Some(UndoErrorPrefix + message);
    }

    /** The error banner's close button. */
    method DismissError()
      modifies this`error
      ensures error == None
    {
      error := None;
    }

    method HandleDismissUndo()
      modifies this`undoNotification
      ensures undoNotification == None
    {
      undoNotification := None;
    }
  }
}
