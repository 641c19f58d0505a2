/**
 * The document table: the column-click toggle of the sort configuration,
 * the stable sort of a copy of the documents on a key extracted per
 * column, the in-place descending sort of a document's own
 * classification list, and the colour and badge helpers.
 */
module ClassificationTable {
  import opened Records
  import Api
  import Text

  // ----- sort configuration -----

  datatype SortField = ByName | ByClassification | ByConfidence | ByEdited
  datatype Direction = Asc | Desc

  /** `{ key, direction }`, with `key` null until a column is clicked. */
  datatype SortConfig = SortConfig(key: Option<SortField>, direction: Direction)

  const InitialSortConfig: SortConfig := SortConfig(None, Asc)

  /** handleSort: the clicked key, descending only when it was already the ascending key. */
  function NextSortConfig(c: SortConfig, k: SortField): (r: SortConfig)
    ensures r.key == Some(k)
    ensures r.direction == Desc <==> c.key == Some(k) && c.direction == Asc
  {
    SortConfig(Some(k), if c.key == Some(k) && c.direction == Asc then Desc else Asc)
  }

  /** Two clicks on the same column from ascending come back to ascending. */
  lemma ToggleTwiceRestores(k: SortField)
    ensures NextSortConfig(NextSortConfig(SortConfig(Some(k), Asc), k), k) == SortConfig(Some(k), Asc)
  {
  }

  /** A click on another column always starts ascending. */
  lemma OtherColumnStartsAscending(c: SortConfig, k: SortField)
    requires c.key != Some(k)
    ensures NextSortConfig(c, k) == SortConfig(Some(k), Asc)
  {
  }

  // ----- keys and their order -----

  /** A comparison value: the name and label columns compare strings, the others numbers. */
  datatype SortKey = Str(text: string) | Num(number: real)

  /** JavaScript's `<` on strings: lexicographic on character codes. */
  predicate StringLess(a: string, b: string)
    decreases |a|
  {
    if a == [] then b != []
    else if b == [] then false
    else if a[0] < b[0] then true
    else if a[0] == b[0] then StringLess(a[1..], b[1..])
    else false
  }

  lemma StringLessIrreflexive(a: string)
    ensures !StringLess(a, a)
  {
  }

  lemma {:induction false} StringLessTransitive(a: string, b: string, c: string)
    requires StringLess(a, b) && StringLess(b, c)
    ensures StringLess(a, c)
    decreases |a|
  {
    if a != [] && a[0] == b[0] && b[0] == c[0] {
      StringLessTransitive(a[1..], b[1..], c[1..]);
    }
  }

  lemma {:induction false} StringLessTotal(a: string, b: string)
    requires a != b
    ensures StringLess(a, b) || StringLess(b, a)
    decreases |a|
  {
    if a != [] && b != [] && a[0] == b[0] {
      assert a == [a[0]] + a[1..] && b == [b[0]] + b[1..];
      StringLessTotal(a[1..], b[1..]);
    }
  }

  /** Keys are only ever compared with keys of the same column; across kinds numbers come first. */
  predicate KeyLess(x: SortKey, y: SortKey) {
    match (x, y)
    case (Num(p), Num(q)) => p < q
    case (Str(s), Str(t)) => StringLess(s, t)
    case (Num(_), Str(_)) => true
    case (Str(_), Num(_)) => false
  }

  /** The comparator's "returns -1": ascending uses `<`, descending `>`. */
  predicate Precedes(dir: Direction, x: SortKey, y: SortKey) {
    if dir == Asc then KeyLess(x, y) else KeyLess(y, x)
  }

  /** Precedes is a strict total order on keys, in both directions. */
  lemma PrecedesOrder(dir: Direction, x: SortKey, y: SortKey, z: SortKey)
    ensures !Precedes(dir, x, x)
    ensures Precedes(dir, x, y) && Precedes(dir, y, z) ==> Precedes(dir, x, z)
    ensures x != y ==> Precedes(dir, x, y) || Precedes(dir, y, x)
  {
    if x.Str? {
      StringLessIrreflexive(x.text);
    }
    if x.Str? && y.Str? && z.Str? {
      if dir == Asc && StringLess(x.text, y.text) && StringLess(y.text, z.text) {
        StringLessTransitive(x.text, y.text, z.text);
      }
      if dir == Desc && StringLess(z.text, y.text) && StringLess(y.text, x.text) {
        StringLessTransitive(z.text, y.text, x.text);
      }
    }
    if x.Str? && y.Str? && x != y {
      StringLessTotal(x.text, y.text);
    }
  }

  /** Comparator outcome on two elements. */
  predicate Less<T>(key: T -> SortKey, dir: Direction, a: T, b: T) {
    Precedes(dir, key(a), key(b))
  }

  /** Not-less is transitive: the facts the sort's ordering proofs rely on. */
  lemma NotLessTransitive<T>(key: T -> SortKey, dir: Direction, a: T, b: T, c: T)
    requires !Less(key, dir, a, b) && !Less(key, dir, b, c)
    ensures !Less(key, dir, a, c)
  {
    PrecedesOrder(dir, key(a), key(b), key(c));
    PrecedesOrder(dir, key(b), key(a), key(c));
  }

  lemma LessImpliesNotLess<T>(key: T -> SortKey, dir: Direction, a: T, b: T)
    requires Less(key, dir, a, b)
    ensures !Less(key, dir, b, a)
  {
    PrecedesOrder(dir, key(a), key(b), key(a));
  }

  /** No later element precedes an earlier one. */
  predicate Sorted<T>(s: seq<T>, key: T -> SortKey, dir: Direction) {
    forall i, j :: 0 <= i < j < |s| ==> !Less(key, dir, s[j], s[i])
  }

  // ----- the stable insertion sort, as a function -----

  /**
   * Inserts `x` behind the last element it does not precede: the step
   * of an insertion sort that shifts larger elements one place right.
   */
  function Insert<T>(s: seq<T>, x: T, key: T -> SortKey, dir: Direction): (r: seq<T>)
    ensures |r| == |s| + 1
    decreases |s|
  {
    if s == [] then [x]
    else if Less(key, dir, x, s[|s| - 1]) then
      Insert(s[..|s| - 1], x, key, dir) + [s[|s| - 1]]
    else s + [x]
  }

  /** The sorted order a stable sort produces: insert each element in turn. */
  function SortBy<T>(s: seq<T>, key: T -> SortKey, dir: Direction): (r: seq<T>)
    ensures |r| == |s|
    decreases |s|
  {
    if s == [] then []
    else
      Insert(SortBy(s[..|s| - 1], key, dir), s[|s| - 1], key, dir)
  }

  lemma {:induction false} InsertPermutes<T>(s: seq<T>, x: T, key: T -> SortKey, dir: Direction)
    ensures multiset(Insert(s, x, key, dir)) == multiset(s) + multiset{x}
    decreases |s|
  {
    if s != [] && Less(key, dir, x, s[|s| - 1]) {
      var p := s[..|s| - 1];
      assert s == p + [s[|s| - 1]];
      InsertPermutes(p, x, key, dir);
    }
  }

  /** The sort's result is a permutation of its input. */
  lemma {:induction false} SortByPermutes<T>(s: seq<T>, key: T -> SortKey, dir: Direction)
    ensures multiset(SortBy(s, key, dir)) == multiset(s)
    decreases |s|
  {
    if s != [] {
      var p := s[..|s| - 1];
      assert s == p + [s[|s| - 1]];
      SortByPermutes(p, key, dir);
      InsertPermutes(SortBy(p, key, dir), s[|s| - 1], key, dir);
    }
  }

  lemma {:induction false} InsertSorted<T>(s: seq<T>, x: T, key: T -> SortKey, dir: Direction)
    requires Sorted(s, key, dir)
    ensures Sorted(Insert(s, x, key, dir), key, dir)
    decreases |s|
  {
    if s != [] {
      var last := s[|s| - 1];
      if Less(key, dir, x, last) {
        var p := s[..|s| - 1];
        InsertSorted(p, x, key, dir);
        var q := Insert(p, x, key, dir);
        InsertPermutes(p, x, key, dir);
        assert forall e :: e in q ==> !Less(key, dir, last, e) by {
          forall e | e in q ensures !Less(key, dir, last, e) {
            assert e in multiset(q);
            if e == x {
              LessImpliesNotLess(key, dir, x, last);
            } else {
              assert e in multiset(p);
              var i :| 0 <= i < |p| && p[i] == e;
              assert s[i] == e;
            }
          }
        }
        var r := q + [last];
        forall i, j | 0 <= i < j < |r| ensures !Less(key, dir, r[j], r[i]) {
          if j == |r| - 1 {
            assert r[i] in q;
          }
        }
      } else {
        var r := s + [x];
        forall i, j | 0 <= i < j < |r| ensures !Less(key, dir, r[j], r[i]) {
          if j == |r| - 1 && i < |s| - 1 {
            NotLessTransitive(key, dir, x, last, s[i]);
          }
        }
      }
    }
  }

  /** The sort's result is ordered: non-decreasing keys ascending, non-increasing descending. */
  lemma {:induction false} SortBySorted<T>(s: seq<T>, key: T -> SortKey, dir: Direction)
    ensures Sorted(SortBy(s, key, dir), key, dir)
    decreases |s|
  {
    if s != [] {
      SortBySorted(s[..|s| - 1], key, dir);
      InsertSorted(SortBy(s[..|s| - 1], key, dir), s[|s| - 1], key, dir);
    }
  }

  /** The elements whose key is `k`, in their order. */
  function Only<T>(s: seq<T>, key: T -> SortKey, k: SortKey): (r: seq<T>)
    ensures |r| <= |s|
  {
    if s == [] then []
    else (if key(s[0]) == k then [s[0]] else []) + Only(s[1..], key, k)
  }

  lemma {:induction false} OnlyAppend<T>(a: seq<T>, b: seq<T>, key: T -> SortKey, k: SortKey)
    ensures Only(a + b, key, k) == Only(a, key, k) + Only(b, key, k)
  {
    if a == [] {
      assert a + b == b;
    } else {
      var h := if key(a[0]) == k then [a[0]] else [];
      assert (a + b)[0] == a[0];
      assert (a + b)[1..] == a[1..] + b;
      OnlyAppend(a[1..], b, key, k);
      assert Only(a + b, key, k) == h + (Only(a[1..], key, k) + Only(b, key, k));
      assert Only(a, key, k) == h + Only(a[1..], key, k);
    }
  }

  lemma OnlySingleton<T>(x: T, key: T -> SortKey, k: SortKey)
    ensures Only([x], key, k) == if key(x) == k then [x] else []
  {
    assert [x][1..] == [];
  }

  lemma InsertStableShift<T>(p: seq<T>, last: T, x: T, key: T -> SortKey, dir: Direction, k: SortKey)
    requires Less(key, dir, x, last)
    requires Only(Insert(p, x, key, dir), key, k) == Only(p, key, k) + Only([x], key, k)
    ensures Only(Insert(p, x, key, dir) + [last], key, k) == Only(p + [last], key, k) + Only([x], key, k)
  {
    OnlyAppend(Insert(p, x, key, dir), [last], key, k);
    OnlyAppend(p, [last], key, k);
    OnlySingleton(x, key, k);
    OnlySingleton(last, key, k);
    PrecedesOrder(dir, key(x), key(last), key(x));
  }

  lemma {:induction false} InsertStable<T>(s: seq<T>, x: T, key: T -> SortKey, dir: Direction, k: SortKey)
    ensures Only(Insert(s, x, key, dir), key, k) == Only(s, key, k) + Only([x], key, k)
    decreases |s|
  {
    if s == [] {
      OnlySingleton(x, key, k);
      assert Insert(s, x, key, dir) == [x];
    } else {
      var p, last := s[..|s| - 1], s[|s| - 1];
      assert s == p + [last];
      if Less(key, dir, x, last) {
        InsertStable(p, x, key, dir, k);
        InsertStableShift(p, last, x, key, dir, k);
      } else {
        OnlyAppend(s, [x], key, k);
      }
    }
  }

  /** Stability: the elements sharing any one key keep their input order. */
  lemma {:induction false} SortByStable<T>(s: seq<T>, key: T -> SortKey, dir: Direction, k: SortKey)
    ensures Only(SortBy(s, key, dir), key, k) == Only(s, key, k)
    decreases |s|
  {
    if s != [] {
      var p, last := s[..|s| - 1], s[|s| - 1];
      SortByStable(p, key, dir, k);
      InsertStable(SortBy(p, key, dir), last, key, dir, k);
      assert s == p + [last];
      OnlyAppend(p, [last], key, k);
    }
  }

  /** Sorting an already sorted list leaves it as it is. */
  lemma {:induction false} SortByFixesSorted<T>(s: seq<T>, key: T -> SortKey, dir: Direction)
    requires Sorted(s, key, dir)
    ensures SortBy(s, key, dir) == s
    decreases |s|
  {
    if s != [] {
      var p, last := s[..|s| - 1], s[|s| - 1];
      assert Sorted(p, key, dir);
      SortByFixesSorted(p, key, dir);
      if |p| > 0 {
        assert !Less(key, dir, last, p[|p| - 1]);
      }
      assert p + [last] == s;
    }
  }

  lemma SortByIdempotent<T>(s: seq<T>, key: T -> SortKey, dir: Direction)
    ensures SortBy(SortBy(s, key, dir), key, dir) == SortBy(s, key, dir)
  {
    SortBySorted(s, key, dir);
    SortByFixesSorted(SortBy(s, key, dir), key, dir);
  }

  // ----- the stable insertion sort, in place -----

  /**
   * Where the shifting stops: `x` goes behind `s[..j]` when it does not
   * precede `s[j - 1]` but precedes every element from `j` on.
   */
  lemma {:induction false} InsertLandsAt<T>(s: seq<T>, x: T, key: T -> SortKey, dir: Direction, j: nat)
    requires j <= |s| && (j == 0 || !Less(key, dir, x, s[j - 1]))
    requires forall k :: j <= k < |s| ==> Less(key, dir, x, s[k])
    ensures Insert(s, x, key, dir) == s[..j] + [x] + s[j..]
    decreases |s|
  {
    if |s| > j {
      var p := s[..|s| - 1];
      InsertLandsAt(p, x, key, dir, j);
      assert p[..j] == s[..j] && s[j..] == p[j..] + [s[|s| - 1]];
    } else {
      assert s[..j] == s && s[j..] == [];
    }
  }

  /** Moves `a[i]` left past the elements it precedes; `a[..i]` is the sorted prefix. */
  method InsertLast<T>(a: array<T>, i: nat, key: T -> SortKey, dir: Direction)
    requires i < a.Length
    modifies a
    ensures a[..i + 1] == Insert(old(a[..i]), old(a[i]), key, dir)
    ensures forall k :: i < k < a.Length ==> a[k] == old(a[k])
  {
    var x := a[i];
    ghost var s := a[..i];
    var j := i;
    while j > 0 && Less(key, dir, x, a[j - 1])
      invariant 0 <= j <= i
      invariant forall k :: 0 <= k < j ==> a[k] == s[k]
      invariant forall k :: j < k <= i ==> a[k] == s[k - 1]
      invariant forall k :: i < k < a.Length ==> a[k] == old(a[k])
      invariant forall k :: j <= k < i ==> Less(key, dir, x, s[k])
    {
      a[j] := a[j - 1];
      j := j - 1;
    }
    a[j] := x;
    InsertLandsAt(s, x, key, dir, j);
    Spliced(a[..], s, x, j);
  }

  /** The array's prefix after the shifting, read back as a sequence. */
  lemma Spliced<T>(r: seq<T>, s: seq<T>, x: T, j: nat)
    requires j <= |s| < |r|
    requires forall k :: 0 <= k < j ==> r[k] == s[k]
    requires r[j] == x
    requires forall k :: j < k <= |s| ==> r[k] == s[k - 1]
    ensures r[..|s| + 1] == s[..j] + [x] + s[j..]
  {
  }

  /** Sorts `a` in place, stably, in the order `key` and `dir` give. */
  method InsertionSort<T>(a: array<T>, key: T -> SortKey, dir: Direction)
    modifies a
    ensures a[..] == SortBy(old(a[..]), key, dir)
  {
    ghost var s := a[..];
    var i := 0;
    while i < a.Length
      invariant 0 <= i <= a.Length
      invariant a[..i] == SortBy(s[..i], key, dir)
      invariant forall k :: i <= k < a.Length ==> a[k] == s[k]
    {
      SortByExtends(s, key, dir, i);
      InsertLast(a, i, key, dir);
      i := i + 1;
    }
    assert s[..a.Length] == s && a[..a.Length] == a[..];
  }

  lemma SortByExtends<T>(s: seq<T>, key: T -> SortKey, dir: Direction, i: nat)
    requires i < |s|
    ensures SortBy(s[..i + 1], key, dir) == Insert(SortBy(s[..i], key, dir), s[i], key, dir)
  {
    assert s[..i + 1][..i] == s[..i];
  }

  // ----- the table's keys -----

  /** The value a column compares, fallbacks included. */
  function Key(field: SortField, d: Document): (k: SortKey)
    ensures field == ByName ==> k == Str(Text.ToLower(d.documentName))
    ensures field == ByClassification ==>
              k == Str(if d.classifications == [] then ""
                       else Api.GetPrimaryClassification(d.classifications).value.name)
    ensures field == ByConfidence ==>
              k == Num(if d.classifications == [] then 0.0
                       else Api.GetPrimaryClassification(d.classifications).value.score)
    ensures field == ByEdited ==> k == Num(if d.manuallyEdited then 1.0 else 0.0)
  {
    match field
    case ByName => Str(Text.ToLower(d.documentName))
    case ByClassification =>
      Str(match Api.GetPrimaryClassification(d.classifications)
          case Some(c) => c.name
          case None => "")
    case ByConfidence =>
      Num(match Api.GetPrimaryClassification(d.classifications)
          case Some(c) => c.score
          case None => 0.0)
    case ByEdited => Num(if d.manuallyEdited then 1.0 else 0.0)
  }

  function KeyOf(field: SortField): Document -> SortKey {
    d => Key(field, d)
  }

  /** What getSortedDocuments returns for a configuration. */
  function SortedDocuments(documents: seq<Document>, c: SortConfig): (r: seq<Document>)
    ensures multiset(r) == multiset(documents)
    ensures c.key.None? ==> r == documents
  {
    match c.key
    case None => documents
    case Some(field) =>
      SortByPermutes(documents, KeyOf(field), c.direction);
      SortBy(documents, KeyOf(field), c.direction)
  }

  /**
   * With a column chosen, the table shows a permutation of the documents,
   * ordered by the column's key, with equal keys in their input order.
   */
  lemma SortedDocumentsSpec(documents: seq<Document>, field: SortField, dir: Direction)
    ensures var r := SortedDocuments(documents, SortConfig(Some(field), dir));
            multiset(r) == multiset(documents) &&
            (dir == Asc ==> forall i, j :: 0 <= i < j < |r| ==> !KeyLess(Key(field, r[j]), Key(field, r[i]))) &&
            (dir == Desc ==> forall i, j :: 0 <= i < j < |r| ==> !KeyLess(Key(field, r[i]), Key(field, r[j]))) &&
            forall k :: Only(r, KeyOf(field), k) == Only(documents, KeyOf(field), k)
  {
    SortBySorted(documents, KeyOf(field), dir);
    SortByPermutes(documents, KeyOf(field), dir);
    forall k {
      SortByStable(documents, KeyOf(field), dir, k);
    }
  }

  /** Re-sorting the table's output with the same configuration changes nothing. */
  lemma SortedDocumentsIdempotent(documents: seq<Document>, c: SortConfig)
    ensures SortedDocuments(SortedDocuments(documents, c), c) == SortedDocuments(documents, c)
  {
    if c.key.Some? {
      SortByIdempotent(documents, KeyOf(c.key.value), c.direction);
    }
  }

  /** Two documents with the same name keep their order both ways: descending is not reversed ascending. */
  lemma DescendingIsNotReversedAscending(a: Document, b: Document)
    requires a != b && a.documentName == b.documentName
    ensures SortedDocuments([a, b], SortConfig(Some(ByName), Asc)) == [a, b]
    ensures SortedDocuments([a, b], SortConfig(Some(ByName), Desc)) == [a, b]
  {
    var k := Key(ByName, a);
    assert KeyOf(ByName)(a) == k && KeyOf(ByName)(b) == k;
    PrecedesOrder(Asc, k, k, k);
    PrecedesOrder(Desc, k, k, k);
    assert [a, b][..1] == [a];
    assert [a][..0] == [];
    assert SortBy([a], KeyOf(ByName), Asc) == [a];
    assert SortBy([a], KeyOf(ByName), Desc) == [a];
  }

  class Table {
    var sortConfig: SortConfig

    constructor ()
      ensures sortConfig == InitialSortConfig
    {
      sortConfig := InitialSortConfig;
    }

    method HandleSort(k: SortField)
      modifies this
      ensures sortConfig == NextSortConfig(old(sortConfig), k)
    {
      var direction := Asc;
      if sortConfig.key == Some(k) && sortConfig.direction == Asc {
        direction := Desc;
      }
      sortConfig := SortConfig(Some(k), direction);
    }

    /** No key: the documents as given; otherwise a sorted copy, the input untouched. */
    method GetSortedDocuments(documents: seq<Document>) returns (r: seq<Document>)
      ensures r == SortedDocuments(documents, sortConfig)
    {
      if sortConfig.key.None? {
        return documents;
      }
      var copy := new Document[|documents|](i requires 0 <= i < |documents| => documents[i]);
      assert copy[..] == documents;
      InsertionSort(copy, KeyOf(sortConfig.key.value), sortConfig.direction);
      r := copy[..];
    }
  }

  // ----- the classification list of one row -----

  function ScoreKey(c: Classification): SortKey {
    Num(c.score)
  }

  /** formatClassificationsList's ordering effect: the document's own array sorted by descending score. */
  method FormatClassificationsList(classifications: array<Classification>)
    modifies classifications
    ensures classifications[..] == SortBy(old(classifications[..]), ScoreKey, Desc)
  {
    InsertionSort(classifications, ScoreKey, Desc);
  }

  lemma {:induction false} OnlyHead<T>(s: seq<T>, key: T -> SortKey, k: SortKey, i: nat)
    requires i < |s| && key(s[i]) == k
    requires forall j :: 0 <= j < i ==> key(s[j]) != k
    ensures Only(s, key, k) != [] && Only(s, key, k)[0] == s[i]
  {
    if i > 0 {
      OnlyHead(s[1..], key, k, i - 1);
    }
  }

  /**
   * Reordering a document's list by descending score does not change its
   * primary classification, which moves to the front.
   */
  lemma {:induction false} DescendingSortKeepsPrimary(cs: seq<Classification>)
    requires |cs| > 0
    ensures var r := SortBy(cs, ScoreKey, Desc);
            Api.GetPrimaryClassification(r) == Api.GetPrimaryClassification(cs) &&
            Api.GetPrimaryClassification(r) == Some(r[0])
  {
    var r := SortBy(cs, ScoreKey, Desc);
    var p := Api.PrimaryIndex(cs);
    var m := cs[p].score;
    SortBySorted(cs, ScoreKey, Desc);
    SortByPermutes(cs, ScoreKey, Desc);
    assert r[0] in multiset(cs);
    assert cs[p] in multiset(r);
    forall j | 0 <= j < |r| ensures r[j].score <= r[0].score {
      if j > 0 {
        assert !Less(ScoreKey, Desc, r[j], r[0]);
      }
    }
    var q :| 0 <= q < |r| && r[q] == cs[p];
    assert r[0].score == m;
    Api.PrimaryIsFirstMaximum(r, 0);
    SortByStable(cs, ScoreKey, Desc, Num(m));
    OnlyHead(r, ScoreKey, Num(m), 0);
    OnlyHead(cs, ScoreKey, Num(m), p);
  }

  lemma DescendingSortKeepsLowConfidence(cs: seq<Classification>)
    ensures Api.IsLowConfidence(SortBy(cs, ScoreKey, Desc)) == Api.IsLowConfidence(cs)
  {
    if |cs| > 0 {
      DescendingSortKeepsPrimary(cs);
    }
  }

  // ----- display helpers -----

  datatype Tone = High | Medium | Low

  /** getConfidenceColor. */
  function ConfidenceColor(score: real): (t: Tone)
    ensures t == High <==> score >= 0.8
    ensures t == Medium <==> 0.7 <= score < 0.8
    ensures t == Low <==> score < 0.7
  {
    if score >= 0.8 then High else if score >= 0.7 then Medium else Low
  }

  /** A row's confidence cell is coloured low exactly when the row is flagged low confidence. */
  lemma LowColorIffLowConfidence(cs: seq<Classification>)
    requires |cs| > 0
    ensures ConfidenceColor(Api.GetPrimaryClassification(cs).value.score) == Low <==> Api.IsLowConfidence(cs)
  {
  }

  /** getClassificationBadgeClass: lower-cased, each whitespace run a dash. */
  function BadgeClass(name: string): (r: string)
    ensures |r| <= |name|
    ensures Text.NoWhitespace(r) && Text.NoUpper(r)
    ensures Text.NoWhitespace(name) ==> r == Text.ToLower(name)
  {
    var lower := Text.ToLower(name);
    var r := Text.DashWhitespace(lower);
    assert Text.NoWhitespace(name) ==> r == lower by {
      if Text.NoWhitespace(name) {
        Text.ToLowerKeepsNoWhitespace(name);
        Text.DashWhitespaceFixesPlainText(lower);
      }
    }
    assert forall i :: 0 <= i < |r| ==> !Text.IsUpper(r[i]) by {
      forall i | 0 <= i < |r| ensures !Text.IsUpper(r[i]) {
        if r[i] != '-' {
          var j :| 0 <= j < |lower| && lower[j] == r[i];
        }
      }
    }
    r
  }

  /**
   * Two words separated by any run of whitespace give the lower-cased words
   * joined by one dash ("Legal  Filing" gives "legal-filing").
   */
  lemma BadgeClassOfTwoWords(a: string, w: string, b: string)
    requires Text.NoWhitespace(a) && Text.NoWhitespace(b)
    requires w != [] && forall i :: 0 <= i < |w| ==> Text.IsWhitespace(w[i])
    ensures BadgeClass(a + w + b) == Text.ToLower(a) + ['-'] + Text.ToLower(b)
  {
    var la, lb := Text.ToLower(a), Text.ToLower(b);
    Text.ToLowerOfTwoWords(a, w, b);
    Text.ToLowerKeepsNoWhitespace(a);
    Text.ToLowerKeepsNoWhitespace(b);
    Text.DashWhitespaceOfTwoWords(la, w, lb);
  }

  /** A badge class is already a badge class. */
  lemma BadgeClassIdempotent(name: string)
    ensures BadgeClass(BadgeClass(name)) == BadgeClass(name)
  {
    var r := BadgeClass(name);
    Text.ToLowerFixesLowerCase(r);
    Text.DashWhitespaceFixesPlainText(r);
  }
}
