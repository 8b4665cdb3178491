/**
  The memory map of the child, kept in a map that is ordered by a comparison of ranges.
 */
module RangeIndex {
  datatype Range = Range(begin: nat, end: nat)

  datatype Region = Region(range: Range, perm: nat, offset: int, name: string)

  /** `operator<` */
  predicate Less(r1: Range, r2: Range) {
    r1.begin < r2.begin && r1.end < r2.end
  }

  /** Keys that the ordered map takes for the same. */
  predicate Equivalent(r1: Range, r2: Range) {
    !Less(r1, r2) && !Less(r2, r1)
  }

  predicate Within(r1: Range, r2: Range) {
    r2.begin <= r1.begin && r1.end <= r2.end
  }

  predicate Disjoint(r1: Range, r2: Range) {
    r1.end <= r2.begin || r2.end <= r1.begin
  }

  predicate NonEmpty(r: Range) {
    r.begin < r.end
  }

  /** Two ranges are the same key exactly when one lies within the other. */
  lemma EquivalentIsNested(r1: Range, r2: Range)
    ensures Equivalent(r1, r2) <==> Within(r1, r2) || Within(r2, r1)
  {
  }

  /** On disjoint non-empty ranges the comparison is a strict total order. */
  lemma StrictTotalOrder(r1: Range, r2: Range, r3: Range)
    requires NonEmpty(r1) && NonEmpty(r2) && NonEmpty(r3)
    requires (r1 == r2 || Disjoint(r1, r2)) && (r2 == r3 || Disjoint(r2, r3)) && (r1 == r3 || Disjoint(r1, r3))
    ensures !Less(r1, r1) && !(Less(r1, r2) && Less(r2, r1))
    ensures Less(r1, r2) && Less(r2, r3) ==> Less(r1, r3)
    ensures Equivalent(r1, r2) <==> r1 == r2
  {
  }

  predicate Nested(r1: Range, r2: Range) {
    Within(r1, r2) || Within(r2, r1)
  }

  /** A node of the map; the key stays when the value is assigned again. */
  datatype Entry = Entry(key: Range, value: Region)

  function Values(es: seq<Entry>): (rs: seq<Region>)
    ensures |rs| == |es| && forall i :: 0 <= i < |es| ==> rs[i] == es[i].value
  {
    seq(|es|, i requires 0 <= i < |es| => es[i].value)
  }

  // ----- the map as the sequence of its nodes -----

  /** The first position whose key is not less than `key`. */
  function LowerBound(es: seq<Entry>, key: Range): (i: nat)
    ensures i <= |es| && (forall j :: 0 <= j < i ==> Less(es[j].key, key)) && (i < |es| ==> !Less(es[i].key, key))
  {
    if es == [] || !Less(es[0].key, key) then 0 else 1 + LowerBound(es[1..], key)
  }

  /** `loaded[m.range] = m`: an equivalent key keeps its place and gets the new value. */
  function Assigned(es: seq<Entry>, m: Region): seq<Entry> {
    var i := LowerBound(es, m.range);
    if i < |es| && Equivalent(es[i].key, m.range) then es[i := Entry(es[i].key, m)]
    else es[..i] + [Entry(m.range, m)] + es[i..]
  }

  /** The map after all lines, starting from an empty one. */
  function Loaded(lines: seq<Region>): seq<Entry> {
    if lines == [] then [] else Assigned(Loaded(lines[..|lines| - 1]), lines[|lines| - 1])
  }

  /** Each key is less than every later one. */
  ghost predicate Chain(es: seq<Entry>) {
    forall i, j :: 0 <= i < j < |es| ==> Less(es[i].key, es[j].key)
  }

  /** No key is nested with `r`. */
  ghost predicate IsNew(es: seq<Entry>, r: Range) {
    forall j :: 0 <= j < |es| ==> !Nested(es[j].key, r)
  }

  ghost predicate KeyedByRange(es: seq<Entry>) {
    forall i :: 0 <= i < |es| ==> es[i].key == es[i].value.range
  }

  // ----- what the caller can check -----

  /** No range lies within another. */
  ghost predicate NoneNested(lines: seq<Region>) {
    forall i, j :: 0 <= i < j < |lines| ==> !Nested(lines[i].range, lines[j].range)
  }

  ghost predicate ApartFromAll(lines: seq<Region>, r: Range) {
    forall k :: 0 <= k < |lines| ==> !Nested(lines[k].range, r)
  }

  ghost predicate PairwiseDisjoint(lines: seq<Region>) {
    && (forall i :: 0 <= i < |lines| ==> NonEmpty(lines[i].range))
    && forall i, j :: 0 <= i < j < |lines| ==> Disjoint(lines[i].range, lines[j].range)
  }

  ghost predicate Ascending(es: seq<Entry>) {
    forall i, j :: 0 <= i < j < |es| ==> es[i].key.end <= es[j].key.begin
  }

  ghost predicate AllNonEmpty(es: seq<Entry>) {
    forall i :: 0 <= i < |es| ==> NonEmpty(es[i].key)
  }

  class Maps {
    /** The map in iteration order. */
    var loaded: seq<Entry>

    constructor ()
      ensures loaded == []
    {
      loaded := [];
    }

    method Seek(key: Range) returns (i: nat)
      ensures i == LowerBound(loaded, key)
    {
      i := 0;
      assert loaded[0..] == loaded;
      while i < |loaded| && Less(loaded[i].key, key)
        invariant i <= |loaded| && LowerBound(loaded, key) == i + LowerBound(loaded[i..], key)
      {
        assert loaded[i..][1..] == loaded[i + 1..];
        i := i + 1;
      }
    }

    method Assign(m: Region)
      modifies this
      ensures loaded == Assigned(old(loaded), m)
    {
      var i := Seek(m.range);
      if i < |loaded| && Equivalent(loaded[i].key, m.range) {
        loaded := loaded[i := Entry(loaded[i].key, m)];
      } else {
        loaded := loaded[..i] + [Entry(m.range, m)] + loaded[i..];
      }
    }

    /**
      The insertion loop of `load_maps`: no region is lost exactly when none is nested with
      another, and disjoint regions are listed by address.
     */
    method LoadMaps(lines: seq<Region>) returns (size: nat)
      requires loaded == []
      modifies this
      ensures loaded == Loaded(lines) && Chain(loaded) && size == |loaded|
      ensures multiset(Values(loaded)) == multiset(lines) <==> NoneNested(lines)
      ensures size == |lines| <==> NoneNested(lines)
      ensures NoneNested(lines) ==> KeyedByRange(loaded)
      ensures PairwiseDisjoint(lines) ==> Ascending(loaded) && NoneNested(lines)
    {
      hide Chain, NoneNested, KeyedByRange, PairwiseDisjoint, Ascending, Assigned, LowerBound;
      for k := 0 to |lines|
        invariant loaded == Loaded(lines[..k])
      {
        Assign(lines[k]);
        assert lines[..k + 1][..k] == lines[..k];
      }
      assert lines[..|lines|] == lines;
      LoadedIsChain(lines);
      LoadedSize(lines);
      if PairwiseDisjoint(lines) {
        LoadedDisjoint(lines);
      }
      size := |loaded|;
    }
  }

  // ----- the map is a chain, for every input -----

  /** On a chain the keys less than `q` are exactly those before its lower bound, so any search tree finds that place. */
  lemma ChainSearch(es: seq<Entry>, q: Range)
    requires Chain(es)
    ensures forall j :: 0 <= j < |es| ==> (Less(es[j].key, q) <==> j < LowerBound(es, q))
  {
    var i := LowerBound(es, q);
    forall j | i < j < |es| ensures !Less(es[j].key, q) {
      assert Less(es[i].key, es[j].key);
    }
  }

  /** The key found at the lower bound decides for all keys. */
  lemma NewIfNotNestedThere(es: seq<Entry>, r: Range)
    requires Chain(es)
    ensures var i := LowerBound(es, r);
            IsNew(es, r) <==> i == |es| || !Equivalent(es[i].key, r)
  {
    var i := LowerBound(es, r);
    if i < |es| && !Equivalent(es[i].key, r) {
      forall j | i < j < |es| ensures Less(r, es[j].key) {
        assert Less(es[i].key, es[j].key);
      }
    }
  }

  /** On a chain an assignment adds the region exactly when no key is nested with it, and else keeps the size. */
  lemma AssignAdds(es: seq<Entry>, m: Region)
    requires Chain(es)
    ensures |Assigned(es, m)| == if IsNew(es, m.range) then |es| + 1 else |es|
    ensures IsNew(es, m.range) <==> multiset(Values(Assigned(es, m))) == multiset(Values(es)) + multiset{m}
    ensures IsNew(es, m.range) && KeyedByRange(es) ==> KeyedByRange(Assigned(es, m))
  {
    hide Chain, IsNew, LowerBound;
    var i := LowerBound(es, m.range);
    NewIfNotNestedThere(es, m.range);
    if IsNew(es, m.range) {
      InsertedOnce(es, i, m);
    } else {
      assert |multiset(Values(Assigned(es, m)))| == |multiset(Values(es))|;
    }
  }

  /** Afterwards the region is stored under an equivalent key, its own if it was new, and all other nodes are as before. */
  lemma AssignStores(es: seq<Entry>, m: Region)
    ensures var i, r := LowerBound(es, m.range), Assigned(es, m);
            && i < |r| && r[i].value == m && Equivalent(r[i].key, m.range)
            && (forall j :: 0 <= j < i ==> r[j] == es[j])
            && (if |r| == |es| then r[i].key == es[i].key && forall j :: i < j < |r| ==> r[j] == es[j]
                else r[i].key == m.range && forall j :: i < j < |r| ==> r[j] == es[j - 1])
  {
  }

  lemma InsertedOnce(es: seq<Entry>, i: nat, m: Region)
    requires i <= |es|
    ensures multiset(Values(es[..i] + [Entry(m.range, m)] + es[i..])) == multiset(Values(es)) + multiset{m}
  {
    var vs := Values(es);
    assert Values(es[..i] + [Entry(m.range, m)] + es[i..]) == vs[..i] + [m] + vs[i..];
    assert vs == vs[..i] + vs[i..];
  }

  lemma AssignKeepsChain(es: seq<Entry>, m: Region)
    requires Chain(es)
    ensures Chain(Assigned(es, m))
  {
    var i := LowerBound(es, m.range);
    if i < |es| && !Equivalent(es[i].key, m.range) {
      forall j | i < j < |es| ensures Less(m.range, es[j].key) {
        assert Less(es[i].key, es[j].key);
      }
    }
  }

  lemma {:induction false} LoadedIsChain(lines: seq<Region>)
    ensures Chain(Loaded(lines))
    decreases |lines|
  {
    hide Chain, Assigned;
    if lines == [] {
      NoneInChain();
    } else {
      LoadedIsChain(lines[..|lines| - 1]);
      AssignKeepsChain(Loaded(lines[..|lines| - 1]), lines[|lines| - 1]);
    }
  }

  lemma NoneInChain()
    ensures Chain([])
  {
  }

  // ----- losing nothing -----

  /** The keys are the ranges of the lines, so being new to the map is being nested with no line before. */
  lemma NewToLines(es: seq<Entry>, lines: seq<Region>, r: Range)
    requires KeyedByRange(es) && multiset(Values(es)) == multiset(lines)
    ensures IsNew(es, r) <==> ApartFromAll(lines, r)
  {
    if IsNew(es, r) {
      forall k | 0 <= k < |lines| ensures !Nested(lines[k].range, r) {
        assert lines[k] in multiset(Values(es));
        var j :| 0 <= j < |es| && Values(es)[j] == lines[k];
        assert !Nested(es[j].key, r);
      }
    } else {
      var j :| 0 <= j < |es| && Nested(es[j].key, r);
      assert Values(es)[j] in multiset(lines);
      var k :| 0 <= k < |lines| && lines[k] == Values(es)[j];
    }
  }

  lemma NoneNestedLast(lines: seq<Region>)
    requires lines != []
    ensures var n := |lines| - 1;
            NoneNested(lines) <==> NoneNested(lines[..n]) && ApartFromAll(lines[..n], lines[n].range)
  {
    var n := |lines| - 1;
    var before := lines[..n];
    if NoneNested(lines) {
      forall i, j | 0 <= i < j < n ensures !Nested(before[i].range, before[j].range) {
        assert !Nested(lines[i].range, lines[j].range);
      }
      forall k | 0 <= k < n ensures !Nested(before[k].range, lines[n].range) {
        assert !Nested(lines[k].range, lines[n].range);
      }
    }
    if NoneNested(before) && ApartFromAll(before, lines[n].range) {
      forall i, j | 0 <= i < j < |lines| ensures !Nested(lines[i].range, lines[j].range) {
        assert !Nested(before[i].range, if j < n then before[j].range else lines[n].range);
      }
    }
  }

  /** Nothing is lost exactly when no line is nested with another. */
  lemma {:induction false} LoadedSize(lines: seq<Region>)
    ensures |Loaded(lines)| <= |lines| && (|Loaded(lines)| == |lines| <==> NoneNested(lines))
    ensures multiset(Values(Loaded(lines))) == multiset(lines) <==> NoneNested(lines)
    ensures NoneNested(lines) ==> KeyedByRange(Loaded(lines))
    decreases |lines|
  {
    hide Assigned, IsNew, Chain, NoneNested, ApartFromAll, KeyedByRange, Nested;
    if lines == [] {
      NothingLoaded();
    } else {
      var before, m := lines[..|lines| - 1], lines[|lines| - 1];
      LoadedSize(before);
      LoadedIsChain(before);
      AssignAdds(Loaded(before), m);
      NoneNestedLast(lines);
      if NoneNested(before) {
        NewToLines(Loaded(before), before, m.range);
      }
      assert lines == before + [m];
      assert |multiset(Values(Loaded(lines)))| == |Loaded(lines)| && |multiset(lines)| == |lines|;
    }
  }

  lemma NothingLoaded()
    ensures NoneNested([]) && KeyedByRange([]) && Values([]) == []
  {
  }

  // ----- disjoint regions -----

  lemma DisjointNotNested(lines: seq<Region>)
    requires PairwiseDisjoint(lines)
    ensures NoneNested(lines)
  {
    forall i, j | 0 <= i < j < |lines| ensures !Nested(lines[i].range, lines[j].range) {
      assert NonEmpty(lines[i].range) && NonEmpty(lines[j].range);
    }
  }

  /** Disjoint non-empty regions are all kept and listed by address. */
  lemma LoadedDisjoint(lines: seq<Region>)
    requires PairwiseDisjoint(lines)
    ensures NoneNested(lines) && Ascending(Loaded(lines)) && AllNonEmpty(Loaded(lines))
  {
    hide Loaded;
    DisjointNotNested(lines);
    LoadedSize(lines);
    LoadedIsChain(lines);
    ChainOfDisjoint(Loaded(lines), lines);
  }

  lemma ChainOfDisjoint(es: seq<Entry>, lines: seq<Region>)
    requires Chain(es) && KeyedByRange(es) && PairwiseDisjoint(lines) && multiset(Values(es)) == multiset(lines)
    ensures Ascending(es) && AllNonEmpty(es)
  {
    forall i | 0 <= i < |es| ensures NonEmpty(es[i].key) {
      var k := LineOf(es, lines, i);
    }
    forall i, j | 0 <= i < j < |es| ensures es[i].key.end <= es[j].key.begin {
      var k := LineOf(es, lines, i);
      var n := LineOf(es, lines, j);
      assert Less(es[i].key, es[j].key);
      assert k < n ==> Disjoint(lines[k].range, lines[n].range);
      assert n < k ==> Disjoint(lines[n].range, lines[k].range);
    }
  }

  lemma LineOf(es: seq<Entry>, lines: seq<Region>, i: nat) returns (k: nat)
    requires KeyedByRange(es) && multiset(Values(es)) == multiset(lines) && i < |es|
    ensures k < |lines| && lines[k].range == es[i].key
  {
    assert Values(es)[i] in multiset(lines);
    k :| k < |lines| && lines[k] == Values(es)[i];
  }

  ghost predicate AwayFrom(es: seq<Entry>, r: Range) {
    NonEmpty(r) && forall i :: 0 <= i < |es| ==> Disjoint(es[i].key, r)
  }

  /** A region apart from all stored ones is added, in address order, and none is lost. */
  lemma AssignKeepsAll(es: seq<Entry>, m: Region)
    requires Ascending(es) && AllNonEmpty(es) && AwayFrom(es, m.range)
    ensures Ascending(Assigned(es, m)) && AllNonEmpty(Assigned(es, m))
    ensures multiset(Values(Assigned(es, m))) == multiset(Values(es)) + multiset{m}
  {
    var i := LowerBound(es, m.range);
    assert i < |es| ==> NonEmpty(es[i].key) && Disjoint(es[i].key, m.range);
    hide Ascending, AllNonEmpty, AwayFrom, LowerBound;
    InsertedOnce(es, i, m);
    InsertedInOrder(es, i, m);
  }

  lemma InsertedInOrder(es: seq<Entry>, i: nat, m: Region)
    requires Ascending(es) && AllNonEmpty(es) && AwayFrom(es, m.range) && i <= |es|
    requires forall j :: 0 <= j < i ==> Less(es[j].key, m.range)
    requires i < |es| ==> !Less(es[i].key, m.range)
    ensures Ascending(es[..i] + [Entry(m.range, m)] + es[i..]) && AllNonEmpty(es[..i] + [Entry(m.range, m)] + es[i..])
  {
    forall j | i <= j < |es| ensures m.range.end <= es[j].key.begin {
      assert es[i].key.begin <= es[j].key.begin;
    }
  }

  /** A sub-range of a stored region is the same key as that region and as no other, and a search ends there. */
  lemma SubRangeFindsRegion(es: seq<Entry>, k: nat, q: Range)
    requires Ascending(es) && AllNonEmpty(es) && k < |es| && NonEmpty(q) && Within(q, es[k].key)
    ensures Equivalent(q, es[k].key) && LowerBound(es, q) == k
    ensures forall j :: 0 <= j < |es| ==> (j < k <==> Less(es[j].key, q)) && (k < j <==> Less(q, es[j].key))
  {
    forall j | 0 <= j < |es| ensures (j < k <==> Less(es[j].key, q)) && (k < j <==> Less(q, es[j].key)) {
      assert NonEmpty(es[j].key) && NonEmpty(es[k].key);
    }
  }
}
