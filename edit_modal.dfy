/**
 * The edit dialog of one document: a draft list of classification
 * entries that the reviewer relabels, rescores, extends and shrinks,
 * the structural "has changes" flag, and the normalisation applied when
 * the draft is saved.
 *
 * The draft starts as a copy of the document's array, not of its entry
 * objects, so the draft and the document share entries until an entry
 * is replaced; the entries are therefore objects here (class Entry).
 */
module EditModal {
  import opened Records

  /** The labels the dialog offers; a new entry takes the first. */
  const AvailableLabels: seq<string> := [
    "Medical", "Legal", "Financial", "Administrative", "Regulatory", "Correspondence",
    "Monitoring", "Laboratory", "Business", "Miscellaneous", "Other"
  ]

  /** The score a newly added entry starts with. */
  const NewEntryScore: real := 0.1

  // ----- pure draft operations on values -----

  /** Sum of the scores (the `reduce((sum, c) => sum + c.score, 0)` of the dialog). */
  function Total(cs: seq<Classification>): real {
    if cs == [] then 0.0 else cs[0].score + Total(cs[1..])
  }

  lemma {:induction false} TotalAppend(a: seq<Classification>, b: seq<Classification>)
    ensures Total(a + b) == Total(a) + Total(b)
  {
    if a == [] {
      assert a + b == b;
    } else {
      assert (a + b)[0] == a[0] && (a + b)[1..] == a[1..] + b;
      TotalAppend(a[1..], b);
    }
  }

  lemma QuotientInUnitInterval(a: real, t: real)
    requires 0.0 <= a <= t && t > 0.0
    ensures 0.0 <= a / t <= 1.0
  {
    assert a / t * t == a;
  }

  predicate NonNegative(cs: seq<Classification>) {
    forall j :: 0 <= j < |cs| ==> cs[j].score >= 0.0
  }

  /** Every score divided by `t`, labels and order kept. */
  function DivideScores(cs: seq<Classification>, t: real): (r: seq<Classification>)
    requires t > 0.0
    ensures |r| == |cs|
    ensures forall j :: 0 <= j < |cs| ==> r[j] == Classification(cs[j].name, cs[j].score / t)
  {
    seq(|cs|, j requires 0 <= j < |cs| => Classification(cs[j].name, cs[j].score / t))
  }

  lemma {:induction false} TotalDivided(cs: seq<Classification>, t: real)
    requires t > 0.0
    ensures Total(DivideScores(cs, t)) == Total(cs) / t
  {
    if cs != [] {
      assert DivideScores(cs, t)[1..] == DivideScores(cs[1..], t);
      TotalDivided(cs[1..], t);
    }
  }

  lemma {:induction false} ScoreAtMostTotal(cs: seq<Classification>, j: nat)
    requires NonNegative(cs) && j < |cs|
    ensures 0.0 <= cs[j].score <= Total(cs)
  {
    TotalNonNegative(cs[1..]);
    if j > 0 {
      ScoreAtMostTotal(cs[1..], j - 1);
    }
  }

  lemma {:induction false} TotalNonNegative(cs: seq<Classification>)
    requires NonNegative(cs)
    ensures Total(cs) >= 0.0
  {
    if cs != [] {
      TotalNonNegative(cs[1..]);
    }
  }

  /** handleLabelChange: only the label at `index` changes. */
  function WithLabel(cs: seq<Classification>, index: nat, newLabel: string): (r: seq<Classification>)
    requires index < |cs|
    ensures |r| == |cs|
    ensures forall j :: 0 <= j < |cs| ==> r[j].score == cs[j].score
    ensures r[index].name == newLabel
    ensures forall j :: 0 <= j < |cs| && j != index ==> r[j] == cs[j]
  {
    cs[index := Classification(newLabel, cs[index].score)]
  }

  /** The raw list of handleScoreChange before normalisation: the score at `index` replaced. */
  function WithScore(cs: seq<Classification>, index: nat, newScore: real): (r: seq<Classification>)
    requires index < |cs|
    ensures |r| == |cs| && r[index] == Classification(cs[index].name, newScore)
    ensures forall j :: 0 <= j < |cs| && j != index ==> r[j] == cs[j]
  {
    cs[index := Classification(cs[index].name, newScore)]
  }

  /**
   * handleScoreChange on values: replace the score at `index`, then divide
   * every score by the new total, but only when that total is positive.
   */
  function ScoreChanged(cs: seq<Classification>, index: nat, newScore: real): (r: seq<Classification>)
    requires index < |cs|
    ensures |r| == |cs|
    ensures forall j :: 0 <= j < |cs| ==> r[j].name == cs[j].name
    ensures var raw := WithScore(cs, index, newScore);
            Total(raw) > 0.0 ==>
              Total(r) == 1.0 &&
              forall j :: 0 <= j < |cs| ==> r[j].score == raw[j].score / Total(raw)
    ensures Total(WithScore(cs, index, newScore)) <= 0.0 ==>
              r[index].score == newScore && forall j :: 0 <= j < |cs| && j != index ==> r[j] == cs[j]
  {
    var raw := WithScore(cs, index, newScore);
    var total := Total(raw);
    if total > 0.0 then
      TotalDivided(raw, total);
      assert total / total == 1.0;
      DivideScores(raw, total)
    else
      raw
  }

  lemma TotalOfPair(x: Classification, y: Classification)
    ensures Total([x, y]) == x.score + y.score
  {
    assert [x, y][0] == x && [x, y][1..] == [y];
    assert [y][0] == y && [y][1..] == [];
    assert Total([y]) == y.score + Total([]);
  }

  /** The worked example: Legal's 0.1 edited to 0.5 gives 0.9/1.4 and 0.5/1.4. */
  lemma ScoreChangedExample()
    ensures ScoreChanged([Classification("Medical", 0.9), Classification("Legal", 0.1)], 1, 0.5)
            == [Classification("Medical", 0.9 / 1.4), Classification("Legal", 0.5 / 1.4)]
  {
    var cs := [Classification("Medical", 0.9), Classification("Legal", 0.1)];
    assert WithScore(cs, 1, 0.5) == [Classification("Medical", 0.9), Classification("Legal", 0.5)];
    TotalOfPair(Classification("Medical", 0.9), Classification("Legal", 0.5));
  }

  /** addClassification: the default entry appended, nothing renormalised. */
  function Appended(cs: seq<Classification>): (r: seq<Classification>)
    ensures |r| == |cs| + 1 && r[..|cs|] == cs
    ensures r[|cs|] == Classification("Medical", 0.1)
    ensures Total(r) == Total(cs) + 0.1
  {
    TotalAppend(cs, [Classification(AvailableLabels[0], NewEntryScore)]);
    cs + [Classification(AvailableLabels[0], NewEntryScore)]
  }

  /** `filter((_, i) => i !== index)` over `s`, whose first element sits at position `pos`. */
  function Without<T>(s: seq<T>, index: nat, pos: nat): (r: seq<T>)
    ensures pos <= index < pos + |s| ==> r == s[..index - pos] + s[index - pos + 1..]
    ensures !(pos <= index < pos + |s|) ==> r == s
    decreases |s|
  {
    if s == [] then []
    else
      var rest := Without(s[1..], index, pos + 1);
      assert pos < index < pos + |s| ==> s[1..][..index - pos - 1] == s[1..index - pos];
      assert pos < index < pos + |s| ==> s[1..][index - pos..] == s[index - pos + 1..];
      (if pos == index then [] else [s[0]]) + rest
  }

  /** removeClassification: refused while only one entry is left. */
  function RemoveAt<T>(s: seq<T>, index: nat): (r: seq<T>)
    ensures |s| <= 1 ==> r == s
    ensures |s| > 1 && index < |s| ==> r == s[..index] + s[index + 1..] && |r| == |s| - 1
    ensures index >= |s| ==> r == s
  {
    if |s| > 1 then Without(s, index, 0) else s
  }

  /** The save-time normalisation: divide by the total, or all zeros when the total is not positive. */
  function Finalised(cs: seq<Classification>): (r: seq<Classification>)
    ensures |r| == |cs|
    ensures forall j :: 0 <= j < |cs| ==> r[j].name == cs[j].name
    ensures Total(cs) > 0.0 ==> forall j :: 0 <= j < |cs| ==> r[j].score == cs[j].score / Total(cs)
    ensures Total(cs) > 0.0 ==> Total(r) == 1.0
    ensures Total(cs) > 0.0 && NonNegative(cs) ==> forall j :: 0 <= j < |r| ==> 0.0 <= r[j].score <= 1.0
    ensures Total(cs) <= 0.0 ==> forall j :: 0 <= j < |r| ==> r[j].score == 0.0
  {
    var total := Total(cs);
    if total > 0.0 then
      TotalDivided(cs, total);
      assert total / total == 1.0;
      assert NonNegative(cs) ==> forall j :: 0 <= j < |cs| ==> 0.0 <= cs[j].score / total <= 1.0 by {
        if NonNegative(cs) {
          forall j | 0 <= j < |cs| ensures 0.0 <= cs[j].score / total <= 1.0 {
            ScoreAtMostTotal(cs, j);
            QuotientInUnitInterval(cs[j].score, total);
          }
        }
      }
      DivideScores(cs, total)
    else
      seq(|cs|, j requires 0 <= j < |cs| => Classification(cs[j].name, 0.0))
  }

  /**
   * The `JSON.stringify` comparison behind hasChanges: entry by entry,
   * label and score, in order.
   */
  function Differs(a: seq<Classification>, b: seq<Classification>): bool {
    if |a| != |b| then true
    else if a == [] then false
    else a[0].name != b[0].name || a[0].score != b[0].score || Differs(a[1..], b[1..])
  }

  /** The entrywise comparison is exactly inequality of the two lists. */
  lemma {:induction false} DiffersIsInequality(a: seq<Classification>, b: seq<Classification>)
    ensures Differs(a, b) <==> a != b
  {
    if |a| == |b| && a != [] {
      assert a == [a[0]] + a[1..] && b == [b[0]] + b[1..];
      DiffersIsInequality(a[1..], b[1..]);
    }
  }

  /** The same entries in another order count as a change. */
  lemma DiffersOnReorder(x: Classification, y: Classification)
    requires x != y
    ensures Differs([x, y], [y, x])
  {
    DiffersIsInequality([x, y], [y, x]);
  }

  // ----- the dialog's state -----

  /**
   * One classification entry object of the draft or of the document. The
   * label is fixed per object (a relabel makes a new one); only the score is
   * rewritten in place.
   */
  class Entry {
    const name: string
    var score: real

    constructor (name: string, score: real)
      ensures this.name == name && this.score == score
    {
      this.name := name;
      this.score := score;
    }
  }

  /** The values currently held by a list of entry objects. */
  function ValuesOf(es: seq<Entry>): (r: seq<Classification>)
    reads es
    ensures |r| == |es|
    ensures forall j {:trigger r[j]} :: 0 <= j < |es| ==> r[j] == Classification(es[j].name, es[j].score)
  {
    if es == [] then [] else [Classification(es[0].name, es[0].score)] + ValuesOf(es[1..])
  }

  ghost predicate Distinct(es: seq<Entry>) {
    forall i, j :: 0 <= i < j < |es| ==> es[i] != es[j]
  }

  datatype SaveOutcome = Resolved(success: bool) | Threw

  class Modal {
    const documentId: DocumentId
    /** The document's own classifications array (the dialog never reassigns it). */
    var original: seq<Entry>
    /** The `classifications` state: the draft. */
    var draft: seq<Entry>
    var hasChanges: bool
    var saving: bool

    /** The draft never holds the same entry object twice. */
    ghost predicate Valid()
      reads this
    {
      Distinct(draft)
    }

    /** `hasChanges` is the entrywise comparison of the draft with the document's list. */
    ghost predicate FlagCurrent()
      reads this, draft, original
    {
      hasChanges == Differs(ValuesOf(draft), ValuesOf(original))
    }

    /** The dialog after its mount effects: the draft is a copy of the document's array. */
    constructor (documentId: DocumentId, documentClassifications: seq<Entry>)
      requires Distinct(documentClassifications)
      ensures Valid() && FlagCurrent()
      ensures this.documentId == documentId
      ensures original == documentClassifications && draft == documentClassifications
      ensures !hasChanges && !saving
    {
      DiffersIsInequality(ValuesOf(documentClassifications), ValuesOf(documentClassifications));
      this.documentId := documentId;
      original := documentClassifications;
      draft := documentClassifications;
      hasChanges := false;
      saving := false;
    }

    method HandleLabelChange(index: nat, newLabel: string)
      requires Valid() && index < |draft|
      modifies this
      ensures Valid() && FlagCurrent() && saving == old(saving)
      ensures original == old(original) && ValuesOf(original) == old(ValuesOf(original))
      ensures |draft| == old(|draft|) && fresh(draft[index])
      ensures forall j :: 0 <= j < |draft| && j != index ==> draft[j] == old(draft[j])
      ensures ValuesOf(draft) == WithLabel(old(ValuesOf(draft)), index, newLabel)
    {
      var e := new Entry(newLabel, draft[index].score);
      var next := draft[index := e];
      DistinctReplaceFresh(draft, index, e);
      RelabelledValues(draft, index, e);
      var now, doc := ValuesOf(next), ValuesOf(original);
      draft, hasChanges := next, Differs(now, doc);
    }

    /**
     * handleScoreChange as written: a fresh entry at `index`, then the
     * normalising loop rewrites the score of every other entry object in
     * place, including the ones the draft shares with the document.
     */
    method HandleScoreChange(index: nat, newScore: real)
      requires Valid() && index < |draft|
      modifies this, draft
      ensures Valid() && FlagCurrent() && saving == old(saving)
      ensures original == old(original)
      ensures |draft| == old(|draft|) && fresh(draft[index])
      ensures forall j :: 0 <= j < |draft| && j != index ==> draft[j] == old(draft[j])
      ensures ValuesOf(draft) == ScoreChanged(old(ValuesOf(draft)), index, newScore)
      ensures unchanged(old(draft[index]))
    {
      var updated := ScoreEdit(draft, index, newScore);
      var now, doc := ValuesOf(updated), ValuesOf(original);
      draft, hasChanges := updated, Differs(now, doc);
    }

    /**
     * The same edit with the normalised entries copied into fresh objects,
     * which leaves the document's entries alone.
     */
    method HandleScoreChangeCopying(index: nat, newScore: real)
      requires Valid() && index < |draft|
      modifies this
      ensures Valid() && FlagCurrent() && saving == old(saving)
      ensures original == old(original) && ValuesOf(original) == old(ValuesOf(original))
      ensures ValuesOf(draft) == ScoreChanged(old(ValuesOf(draft)), index, newScore)
    {
      var values := ScoreChanged(ValuesOf(draft), index, newScore);
      var entries := NewEntries(values);
      var doc := ValuesOf(original);
      draft, hasChanges := entries, Differs(values, doc);
    }

    method AddClassification()
      requires Valid()
      modifies this
      ensures Valid() && FlagCurrent() && saving == old(saving)
      ensures original == old(original) && ValuesOf(original) == old(ValuesOf(original))
      ensures |draft| == old(|draft|) + 1 && draft[..old(|draft|)] == old(draft)
      ensures fresh(draft[old(|draft|)])
      ensures ValuesOf(draft) == Appended(old(ValuesOf(draft)))
    {
      var e := new Entry(AvailableLabels[0], NewEntryScore);
      var next := draft + [e];
      ValuesOfAppend(draft, e);
      var now, doc := ValuesOf(next), ValuesOf(original);
      draft, hasChanges := next, Differs(now, doc);
    }

    method RemoveClassification(index: nat)
      requires Valid() && FlagCurrent()
      modifies this
      ensures Valid() && FlagCurrent() && saving == old(saving)
      ensures original == old(original) && ValuesOf(original) == old(ValuesOf(original))
      ensures draft == RemoveAt(old(draft), index)
      ensures ValuesOf(draft) == RemoveAt(old(ValuesOf(draft)), index)
    {
      if |draft| > 1 {
        DistinctRemoveAt(draft, index);
        ValuesOfRemoveAt(draft, index);
        var next := Without(draft, index, 0);
        var now, doc := ValuesOf(next), ValuesOf(original);
        draft, hasChanges := next, Differs(now, doc);
      }
    }

    /**
     * handleSave: the normalised list is handed to the parent's save
     * callback, whose outcome is a parameter; `saving` drops back to false
     * unless the callback resolved to true.
     */
    method HandleSave(outcome: SaveOutcome) returns (id: DocumentId, submitted: seq<Classification>)
      requires Valid()
      modifies this`saving
      ensures id == documentId && submitted == Finalised(ValuesOf(draft))
      ensures saving == (outcome == Resolved(true))
    {
      saving := true;
      var values := ValuesOf(draft);
      id, submitted := documentId, Finalised(values);
      if outcome != Resolved(true) {
        saving := false;
      }
    }
  }

  /**
   * The body of handleScoreChange on the entry objects: a fresh entry at
   * `index`, then every entry of the list rescaled in place.
   */
  method ScoreEdit(es: seq<Entry>, index: nat, newScore: real) returns (updated: seq<Entry>)
    requires Distinct(es) && index < |es|
    modifies es
    ensures Distinct(updated) && |updated| == |es| && fresh(updated[index])
    ensures forall j :: 0 <= j < |es| && j != index ==> updated[j] == es[j]
    ensures ValuesOf(updated) == ScoreChanged(old(ValuesOf(es)), index, newScore)
    ensures unchanged(es[index])
  {
    var e := new Entry(es[index].name, newScore);
    updated := es[index := e];
    DistinctReplaceFresh(es, index, e);
    var raw := ValuesOf(updated);
    ValuesOfUpdate(es, index, e);
    assert raw == WithScore(old(ValuesOf(es)), index, newScore);
    var total := Total(raw);
    if total > 0.0 {
      RescaleEntries(updated, total);
    }
  }

  /** The normalising `forEach`: every entry object's score divided by `total`, in place. */
  method RescaleEntries(es: seq<Entry>, total: real)
    requires Distinct(es) && total > 0.0
    modifies es
    ensures ValuesOf(es) == DivideScores(old(ValuesOf(es)), total)
    ensures forall j :: 0 <= j < |es| ==> es[j].score == old(es[j].score) / total
  {
    var k := 0;
    while k < |es|
      invariant 0 <= k <= |es|
      invariant forall j :: 0 <= j < k ==> es[j].score == old(es[j].score) / total
      invariant forall j :: k <= j < |es| ==> es[j].score == old(es[j].score)
    {
      es[k].score := es[k].score / total;
      k := k + 1;
    }
  }

  lemma ValuesOfUpdate(es: seq<Entry>, index: nat, e: Entry)
    requires index < |es|
    ensures ValuesOf(es[index := e]) == ValuesOf(es)[index := Classification(e.name, e.score)]
  {
  }

  lemma DistinctReplaceFresh(es: seq<Entry>, index: nat, e: Entry)
    requires Distinct(es) && index < |es| && e !in es
    ensures Distinct(es[index := e])
  {
  }

  lemma RelabelledValues(es: seq<Entry>, index: nat, e: Entry)
    requires index < |es| && e.score == es[index].score
    ensures ValuesOf(es[index := e]) == WithLabel(ValuesOf(es), index, e.name)
  {
    ValuesOfUpdate(es, index, e);
  }

  lemma ValuesOfAppend(es: seq<Entry>, e: Entry)
    ensures ValuesOf(es + [e]) == ValuesOf(es) + [Classification(e.name, e.score)]
  {
  }

  lemma DistinctRemoveAt(es: seq<Entry>, index: nat)
    requires Distinct(es)
    ensures Distinct(RemoveAt(es, index))
  {
    if |es| > 1 && index < |es| {
      var r := RemoveAt(es, index);
      forall i, j | 0 <= i < j < |r| ensures r[i] != r[j] {
        var i' := if i < index then i else i + 1;
        var j' := if j < index then j else j + 1;
        assert r[i] == es[i'] && r[j] == es[j'];
      }
    }
  }

  lemma ValuesOfRemoveAt(es: seq<Entry>, index: nat)
    ensures ValuesOf(RemoveAt(es, index)) == RemoveAt(ValuesOf(es), index)
  {
    if |es| > 1 && index < |es| {
      var r := RemoveAt(es, index);
      var v := RemoveAt(ValuesOf(es), index);
      assert |ValuesOf(r)| == |v|;
      forall j | 0 <= j < |v| ensures ValuesOf(r)[j] == v[j] {
        var j' := if j < index then j else j + 1;
        assert r[j] == es[j'] && v[j] == ValuesOf(es)[j'];
      }
    }
  }

  /** Fresh entry objects holding the given values. */
  method NewEntries(cs: seq<Classification>) returns (es: seq<Entry>)
    ensures Distinct(es) && ValuesOf(es) == cs
    ensures forall e :: e in es ==> fresh(e)
  {
    es := [];
    var k := 0;
    while k < |cs|
      invariant 0 <= k <= |cs|
      invariant |es| == k && Distinct(es)
      invariant forall e :: e in es ==> fresh(e)
      invariant forall j :: 0 <= j < k ==> es[j].name == cs[j].name && es[j].score == cs[j].score
    {
      var e := new Entry(cs[k].name, cs[k].score);
      es := es + [e];
      k := k + 1;
    }
  }

  /**
   * The document's first entry after Legal's score is edited from 0.1 to
   * 0.5 in a fresh dialog: the edit rewrites the document's own Medical
   * entry, which the draft still shares, from 0.9 to 0.9 / 1.4.
   */
  method SharedEntryRewritten() returns (before: seq<Classification>, after: seq<Classification>)
    ensures before == [Classification("Medical", 0.9), Classification("Legal", 0.1)]
    ensures after == [Classification("Medical", 0.9 / 1.4), Classification("Legal", 0.1)]
    ensures before != after
  {
    var medical := new Entry("Medical", 0.9);
    var legal := new Entry("Legal", 0.1);
    var shared := [medical, legal];
    var modal := new Modal(1, shared);
    before := ValuesOf(shared);
    assert before == [Classification("Medical", 0.9), Classification("Legal", 0.1)];
    ScoreChangedExample();
    modal.HandleScoreChange(1, 0.5);
    ghost var now := ValuesOf(modal.draft);
    assert now[0] == Classification("Medical", 0.9 / 1.4);
    assert modal.draft[0] == medical;
    assert medical.score == 0.9 / 1.4;
    after := ValuesOf(shared);
  }

  /** The copying edit of the same example leaves the document's entries as they were. */
  method CopiedEntriesKept() returns (before: seq<Classification>, after: seq<Classification>)
    ensures before == [Classification("Medical", 0.9), Classification("Legal", 0.1)]
    ensures after == before
  {
    var medical := new Entry("Medical", 0.9);
    var legal := new Entry("Legal", 0.1);
    var modal := new Modal(1, [medical, legal]);
    before := ValuesOf(modal.original);
    modal.HandleScoreChangeCopying(1, 0.5);
    after := ValuesOf(modal.original);
  }
}
