/** The marketing-file listing (`GET /ir`): the stored IR records, narrowed
    to one category unless the requested category is absent, empty or
    "전체" (all), then sorted by the lower-cased original file name with
    Python's stable `sorted`. Lower-casing is Unicode-aware in the source;
    here it is a parameter `lower`, and the order on its results is Python's
    string order, code point by code point. */
module IrListing {
  import opened Basics

  datatype IrFile = IrFile(
    id: int,
    originalName: string,
    storedName: string,
    category: Option<string>,
    folder: Option<string>,
    uploadDate: string,
    size: int)

  const AllCategories: string := "전체"

  /** Whether the request narrows the listing at all. */
  predicate Narrows(category: Option<string>) {
    category.Some? && category.value != "" && category.value != AllCategories
  }

  /** Whether a record survives the category filter; the SQL equality test
      never matches a record whose category is NULL. */
  predicate Kept(category: Option<string>, f: IrFile) {
    !Narrows(category) || f.category == category
  }

  function Selected(records: seq<IrFile>, category: Option<string>): (r: seq<IrFile>)
    ensures !Narrows(category) ==> r == records
    ensures forall f :: f in r <==> f in records && (Narrows(category) ==> f.category == category)
  {
    var keep := (f: IrFile) => Kept(category, f);
    assert !Narrows(category) ==> Filter(records, keep) == records by {
      if !Narrows(category) { FilterKeepsAll(records, keep); }
    }
    Filter(records, keep)
  }

  // ---------------------------------------------------------------------
  // Python's string order

  /** `a <= b` on Python strings: lexicographic by code point, a proper
      prefix before the longer string. */
  predicate LexLe(a: string, b: string) {
    if a == [] then true
    else if b == [] then false
    else if a[0] != b[0] then a[0] < b[0]
    else LexLe(a[1..], b[1..])
  }

  lemma {:induction false} LexLeReflexive(a: string)
    ensures LexLe(a, a)
  {
    if a != [] { LexLeReflexive(a[1..]); }
  }

  lemma {:induction false} LexLeTotal(a: string, b: string)
    ensures LexLe(a, b) || LexLe(b, a)
  {
    if a != [] && b != [] && a[0] == b[0] { LexLeTotal(a[1..], b[1..]); }
  }

  lemma {:induction false} LexLeTransitive(a: string, b: string, c: string)
    requires LexLe(a, b) && LexLe(b, c)
    ensures LexLe(a, c)
  {
    if a != [] && b != [] && c != [] && a[0] == b[0] && b[0] == c[0] {
      LexLeTransitive(a[1..], b[1..], c[1..]);
    }
  }

  /** Two strings each at most the other are equal. */
  lemma {:induction false} LexLeAntisymmetric(a: string, b: string)
    requires LexLe(a, b) && LexLe(b, a)
    ensures a == b
  {
    if a != [] && b != [] {
      LexLeAntisymmetric(a[1..], b[1..]);
      assert a == [a[0]] + a[1..] && b == [b[0]] + b[1..];
    }
  }

  // ---------------------------------------------------------------------
  // The sort

  function SortKey(lower: string -> string, f: IrFile): string {
    lower(f.originalName)
  }

  predicate SortedBy(s: seq<IrFile>, lower: string -> string) {
    forall i, j :: 0 <= i < j < |s| ==> LexLe(SortKey(lower, s[i]), SortKey(lower, s[j]))
  }

  /** Insert `x` behind every element whose key is not greater than its
      own, so that `x` lands after the records it ties with. */
  function Insert(t: seq<IrFile>, x: IrFile, lower: string -> string): (r: seq<IrFile>)
    ensures multiset(r) == multiset(t) + multiset{x}
  {
    if t == [] then [x]
    else if LexLe(SortKey(lower, t[|t| - 1]), SortKey(lower, x)) then t + [x]
    else
      assert t == t[..|t| - 1] + [t[|t| - 1]];
      Insert(t[..|t| - 1], x, lower) + [t[|t| - 1]]
  }

  /** `sorted(s, key=...)`, one element at a time from the front. */
  function Sort(s: seq<IrFile>, lower: string -> string): (r: seq<IrFile>)
    ensures multiset(r) == multiset(s)
  {
    if s == [] then []
    else
      assert s == s[..|s| - 1] + [s[|s| - 1]];
      Insert(Sort(s[..|s| - 1], lower), s[|s| - 1], lower)
  }

  lemma {:induction false} InsertSorted(t: seq<IrFile>, x: IrFile, lower: string -> string)
    requires SortedBy(t, lower)
    ensures SortedBy(Insert(t, x, lower), lower)
  {
    if t != [] {
      var init, last := t[..|t| - 1], t[|t| - 1];
      var kx, kl := SortKey(lower, x), SortKey(lower, last);
      if LexLe(kl, kx) {
        forall i | 0 <= i < |t| ensures LexLe(SortKey(lower, t[i]), kx) {
          if i < |t| - 1 { LexLeTransitive(SortKey(lower, t[i]), kl, kx); }
        }
      } else {
        LexLeTotal(kl, kx);
        InsertSorted(init, x, lower);
        var u := Insert(init, x, lower);
        forall i | 0 <= i < |u| ensures LexLe(SortKey(lower, u[i]), kl) {
          assert u[i] in multiset(u);
          if u[i] != x {
            assert u[i] in multiset(init);
            var k :| 0 <= k < |init| && init[k] == u[i];
            assert t[k] == init[k];
          }
        }
      }
    }
  }

  lemma {:induction false} SortSorted(s: seq<IrFile>, lower: string -> string)
    ensures SortedBy(Sort(s, lower), lower)
  {
    if s != [] {
      SortSorted(s[..|s| - 1], lower);
      InsertSorted(Sort(s[..|s| - 1], lower), s[|s| - 1], lower);
    }
  }

  /** The records of a sequence whose key is exactly `k`, in order. */
  function WithKey(s: seq<IrFile>, lower: string -> string, k: string): seq<IrFile> {
    Filter(s, (f: IrFile) => SortKey(lower, f) == k)
  }

  /** Inserting `x` appends it to the run of records that share its key and
      leaves every other run alone. */
  lemma {:induction false} InsertStable(t: seq<IrFile>, x: IrFile, lower: string -> string, k: string)
    ensures WithKey(Insert(t, x, lower), lower, k)
         == WithKey(t, lower, k) + (if SortKey(lower, x) == k then [x] else [])
  {
    var same := (f: IrFile) => SortKey(lower, f) == k;
    if t == [] {
      assert Insert(t, x, lower) == [] + [x];
    } else {
      var init, last := t[..|t| - 1], t[|t| - 1];
      assert t == init + [last];
      if LexLe(SortKey(lower, last), SortKey(lower, x)) {
        FilterConcat(t, [x], same);
      } else {
        InsertStable(init, x, lower, k);
        if SortKey(lower, x) == k { LexLeReflexive(k); }
        FilterConcat(Insert(init, x, lower), [last], same);
        FilterConcat(init, [last], same);
      }
    }
  }

  /** Stability: records with equal keys come out in their input order. */
  lemma {:induction false} SortStable(s: seq<IrFile>, lower: string -> string, k: string)
    ensures WithKey(Sort(s, lower), lower, k) == WithKey(s, lower, k)
  {
    if s != [] {
      var init, last := s[..|s| - 1], s[|s| - 1];
      SortStable(init, lower, k);
      InsertStable(Sort(init, lower), last, lower, k);
      assert WithKey(s, lower, k) == WithKey(init, lower, k) + (if SortKey(lower, last) == k then [last] else []);
    }
  }

  /** `get_ir(category)`: the selected records, sorted and stable. */
  function ListIr(records: seq<IrFile>, category: Option<string>, lower: string -> string): (r: seq<IrFile>)
    ensures SortedBy(r, lower)
    ensures multiset(r) == multiset(Selected(records, category))
    ensures forall f :: f in r <==> f in records && Kept(category, f)
    ensures forall k :: WithKey(r, lower, k) == WithKey(Selected(records, category), lower, k)
  {
    var sel := Selected(records, category);
    SortSorted(sel, lower);
    assert forall k :: WithKey(Sort(sel, lower), lower, k) == WithKey(sel, lower, k) by {
      forall k { SortStable(sel, lower, k); }
    }
    assert forall f :: f in Sort(sel, lower) <==> f in multiset(Sort(sel, lower));
    Sort(sel, lower)
  }

  /** Without a narrowing category the listing holds every record, each as
      often as it is stored. */
  lemma ListAllKeepsEverything(records: seq<IrFile>, lower: string -> string)
    ensures multiset(ListIr(records, Some(AllCategories), lower)) == multiset(records)
    ensures multiset(ListIr(records, Some(""), lower)) == multiset(records)
    ensures multiset(ListIr(records, None, lower)) == multiset(records)
  {
  }
}
