/**
  The open-file lister: deduplication of mapped files, and the three filters between
  collecting the entries and printing them.
 */
module Lsof {

  datatype FileDescriptor = FileDescriptor(fd: string, kind: string, node: string, name: string)

  datatype PidInfo = PidInfo(pid: string, uid: string, username: string, comm: string, files: seq<FileDescriptor>)

  /** One printed line. */
  datatype Row = Row(comm: string, pid: string, username: string, file: FileDescriptor)

  /** `regex_search(text, pattern)` */
  type Matcher = (string, string) -> bool

  function Filter<T>(s: seq<T>, keep: T -> bool): seq<T> {
    if s == [] then []
    else Filter(s[..|s| - 1], keep) + (if keep(s[|s| - 1]) then [s[|s| - 1]] else [])
  }

  lemma {:induction false} FilterAppend<T>(s: seq<T>, t: seq<T>, keep: T -> bool)
    ensures Filter(s + t, keep) == Filter(s, keep) + Filter(t, keep)
    decreases |t|
  {
    if t == [] {
      assert s + t == s;
    } else {
      var n := |t| - 1;
      assert (s + t)[..|s| + n] == s + t[..n];
      FilterAppend(s, t[..n], keep);
    }
  }

  /** `t` has the elements of `s` at exactly the positions where `take` holds, in order. */
  ghost predicate TakenWhere<T(!new)>(s: seq<T>, t: seq<T>, take: T -> bool) {
    exists at: seq<nat> :: TakenAt(s, t, at, take)
  }

  ghost predicate TakenAt<T(!new)>(s: seq<T>, t: seq<T>, at: seq<nat>, take: T -> bool) {
    && |at| == |t| && (forall i, j :: 0 <= i < j < |at| ==> at[i] < at[j])
    && (forall j :: 0 <= j < |at| ==> at[j] < |s| && t[j] == s[at[j]])
    && (forall i :: 0 <= i < |s| ==> (i in at <==> take(s[i])))
  }

  lemma TakenOneMore<T(!new)>(s: seq<T>, t: seq<T>, at: seq<nat>, x: T, take: T -> bool)
    requires TakenAt(s, t, at, take) && take(x)
    ensures TakenAt(s + [x], t + [x], at + [|s|], take)
  {
    var s', at' := s + [x], at + [|s|];
    forall i | 0 <= i < |s'| ensures i in at' <==> take(s'[i]) {
      assert at'[|at|] == |s|;
      assert i < |s| ==> (i in at <==> take(s[i]));
    }
  }

  lemma TakenNoMore<T(!new)>(s: seq<T>, t: seq<T>, at: seq<nat>, x: T, take: T -> bool)
    requires TakenAt(s, t, at, take) && !take(x)
    ensures TakenAt(s + [x], t, at, take)
  {
    var s' := s + [x];
    forall i | 0 <= i < |s'| ensures i in at <==> take(s'[i]) {
      assert i < |s| ==> (i in at <==> take(s[i]));
    }
  }

  lemma {:induction false} FilterPositions<T(!new)>(s: seq<T>, keep: T -> bool, take: T -> bool) returns (at: seq<nat>)
    requires forall x :: keep(x) <==> take(x)
    ensures TakenAt(s, Filter(s, keep), at, take)
  {
    at := [];
    if s != [] {
      var before, x := s[..|s| - 1], s[|s| - 1];
      at := FilterPositions(before, keep, take);
      hide TakenAt;
      assert before + [x] == s;
      if keep(x) {
        TakenOneMore(before, Filter(before, keep), at, x, take);
        at := at + [|before|];
      } else {
        TakenNoMore(before, Filter(before, keep), at, x, take);
        assert Filter(before, keep) + [] == Filter(before, keep);
      }
    }
  }

  lemma FilterTakes<T(!new)>(s: seq<T>, keep: T -> bool, take: T -> bool)
    requires forall x :: keep(x) <==> take(x)
    ensures TakenWhere(s, Filter(s, keep), take)
  {
    var at := FilterPositions(s, keep, take);
  }

  lemma {:induction false} FilterCounts<T>(s: seq<T>, keep: T -> bool, x: T)
    ensures multiset(Filter(s, keep))[x] == if keep(x) then multiset(s)[x] else 0
    decreases |s|
  {
    if s != [] {
      var n := |s| - 1;
      FilterCounts(s[..n], keep, x);
      assert s == s[..n] + [s[n]];
    }
  }

  /** One turn of an erasing loop: `now` is `before` with its first `seen` elements filtered, and the next is erased or kept. */
  lemma EraseOrKeep<T>(before: seq<T>, seen: nat, now: seq<T>, i: nat, keep: T -> bool)
    requires seen <= |before| && i < |now| && now[i..] == before[seen..] && now[..i] == Filter(before[..seen], keep)
    ensures seen < |before|
    ensures keep(now[i]) ==> now[i + 1..] == before[seen + 1..] && now[..i + 1] == Filter(before[..seen + 1], keep)
    ensures !keep(now[i]) ==>
              var rest := now[..i] + now[i + 1..];
              rest[i..] == before[seen + 1..] && rest[..i] == Filter(before[..seen + 1], keep)
  {
    assert now[i] == now[i..][0] == before[seen..][0] == before[seen];
    assert before[..seen + 1][..seen] == before[..seen];
    assert now[i + 1..] == now[i..][1..] && before[seen + 1..] == before[seen..][1..];
  }

  /** An empty pattern keeps everything. */
  predicate Passes(matches: Matcher, text: string, pattern: string) {
    pattern == "" || matches(text, pattern)
  }

  // ----- the filters on the whole list -----

  function CommTest(matches: Matcher, comm: string): PidInfo -> bool {
    (p: PidInfo) => Passes(matches, p.comm, comm)
  }

  function KeepComm(procs: seq<PidInfo>, matches: Matcher, comm: string): seq<PidInfo> {
    Filter(procs, CommTest(matches, comm))
  }

  function KeepFiles(procs: seq<PidInfo>, keep: FileDescriptor -> bool): (r: seq<PidInfo>)
    ensures |r| == |procs|
  {
    seq(|procs|, i requires 0 <= i < |procs| => procs[i].(files := Filter(procs[i].files, keep)))
  }

  function KindTest(matches: Matcher, kind: string): FileDescriptor -> bool {
    (f: FileDescriptor) => Passes(matches, f.kind, kind)
  }

  function NameTest(matches: Matcher, name: string): FileDescriptor -> bool {
    (f: FileDescriptor) => Passes(matches, f.name, name)
  }

  function RowsOf(p: PidInfo): seq<Row> {
    seq(|p.files|, j requires 0 <= j < |p.files| => Row(p.comm, p.pid, p.username, p.files[j]))
  }

  /** Every entry, process by process. */
  function AllRows(procs: seq<PidInfo>): seq<Row> {
    if procs == [] then [] else AllRows(procs[..|procs| - 1]) + RowsOf(procs[|procs| - 1])
  }

  /** The rows of two lists are those of the one and then those of the other. */
  lemma {:induction false} AllRowsAppend(a: seq<PidInfo>, b: seq<PidInfo>)
    ensures AllRows(a + b) == AllRows(a) + AllRows(b)
    decreases |b|
  {
    hide RowsOf;
    if b == [] {
      assert a + b == a;
    } else {
      var n := |b| - 1;
      assert (a + b)[..|a| + n] == a + b[..n];
      AllRowsAppend(a, b[..n]);
      assert AllRows(a) + AllRows(b[..n]) + RowsOf(b[n]) == AllRows(a) + (AllRows(b[..n]) + RowsOf(b[n]));
    }
  }

  /** The rows of one process are its files in order, each with what is known of the process. */
  lemma AllRowsOfOne(p: PidInfo)
    ensures |AllRows([p])| == |p.files|
    ensures forall j :: 0 <= j < |p.files| ==>
              var row := AllRows([p])[j];
              row.comm == p.comm && row.pid == p.pid && row.username == p.username && row.file == p.files[j]
  {
    assert [p][..0] == [];
  }

  class Lister {
    var procs: seq<PidInfo>

    /** `search_comm` */
    method SearchComm(matches: Matcher, comm: string)
      modifies this
      ensures procs == KeepComm(old(procs), matches, comm)
      ensures TakenWhere(old(procs), procs, (p: PidInfo) => comm == "" || matches(p.comm, comm))
    {
      ghost var before := procs;
      FilterTakes(before, CommTest(matches, comm), (p: PidInfo) => comm == "" || matches(p.comm, comm));
      if comm == "" {
        FilterAll(before, CommTest(matches, comm));
        return;
      }
      var i := 0;
      ghost var seen := 0;
      while i < |procs|
        invariant 0 <= seen <= |before| && i <= |procs|
        invariant procs[i..] == before[seen..]
        invariant procs[..i] == KeepComm(before[..seen], matches, comm)
        decreases |procs| - i
      {
        EraseOrKeep(before, seen, procs, i, CommTest(matches, comm));
        if !matches(procs[i].comm, comm) {
          procs := procs[..i] + procs[i + 1..];
        } else {
          i := i + 1;
        }
        seen := seen + 1;
      }
      assert procs[..i] == procs && before[..seen] == before;
    }

    /** The inner loop of `search_type` and `search_file`, on process `i`. */
    method EraseFiles(i: nat, keep: FileDescriptor -> bool)
      requires i < |procs|
      modifies this
      ensures procs == old(procs)[i := old(procs)[i].(files := Filter(old(procs)[i].files, keep))]
    {
      ghost var before := procs[i].files;
      var j := 0;
      ghost var seen := 0;
      while j < |procs[i].files|
        invariant i < |procs| && j <= |procs[i].files| && 0 <= seen <= |before|
        invariant procs == old(procs)[i := old(procs)[i].(files := procs[i].files)]
        invariant procs[i].files[j..] == before[seen..]
        invariant procs[i].files[..j] == Filter(before[..seen], keep)
        decreases |procs[i].files| - j
      {
        var files := procs[i].files;
        EraseOrKeep(before, seen, files, j, keep);
        if !keep(files[j]) {
          procs := procs[i := procs[i].(files := files[..j] + files[j + 1..])];
        } else {
          j := j + 1;
        }
        seen := seen + 1;
      }
      assert procs[i].files[..j] == procs[i].files && before[..seen] == before;
    }

    /** The outer loop of both. */
    method EraseAllFiles(keep: FileDescriptor -> bool)
      modifies this
      ensures procs == KeepFiles(old(procs), keep)
    {
      for i := 0 to |procs|
        invariant |procs| == |old(procs)|
        invariant forall k :: 0 <= k < |procs| ==> procs[k] == if k < i then KeepFiles(old(procs), keep)[k] else old(procs)[k]
      {
        EraseFiles(i, keep);
      }
    }

    method SearchType(matches: Matcher, kind: string)
      modifies this
      ensures procs == KeepFiles(old(procs), KindTest(matches, kind))
      ensures |procs| == |old(procs)| && forall i :: 0 <= i < |procs| ==>
                && procs[i] == old(procs)[i].(files := procs[i].files)
                && TakenWhere(old(procs)[i].files, procs[i].files, (f: FileDescriptor) => kind == "" || matches(f.kind, kind))
    {
      forall i | 0 <= i < |procs|
        ensures TakenWhere(procs[i].files, KeepFiles(procs, KindTest(matches, kind))[i].files, (f: FileDescriptor) => kind == "" || matches(f.kind, kind))
      {
        FilterTakes(procs[i].files, KindTest(matches, kind), (f: FileDescriptor) => kind == "" || matches(f.kind, kind));
      }
      if kind != "" {
        EraseAllFiles(KindTest(matches, kind));
      } else {
        KeepAllFiles(procs, KindTest(matches, kind));
      }
    }

    method SearchFile(matches: Matcher, file: string)
      modifies this
      ensures procs == KeepFiles(old(procs), NameTest(matches, file))
      ensures |procs| == |old(procs)| && forall i :: 0 <= i < |procs| ==>
                && procs[i] == old(procs)[i].(files := procs[i].files)
                && TakenWhere(old(procs)[i].files, procs[i].files, (f: FileDescriptor) => file == "" || matches(f.name, file))
    {
      forall i | 0 <= i < |procs|
        ensures TakenWhere(procs[i].files, KeepFiles(procs, NameTest(matches, file))[i].files, (f: FileDescriptor) => file == "" || matches(f.name, file))
      {
        FilterTakes(procs[i].files, NameTest(matches, file), (f: FileDescriptor) => file == "" || matches(f.name, file));
      }
      if file != "" {
        EraseAllFiles(NameTest(matches, file));
      } else {
        KeepAllFiles(procs, NameTest(matches, file));
      }
    }

    /** `print_all` */
    method PrintAll() returns (out: seq<Row>)
      ensures out == AllRows(procs)
    {
      out := [];
      for i := 0 to |procs|
        invariant out == AllRows(procs[..i])
      {
        var p := procs[i];
        for j := 0 to |p.files|
          invariant out == AllRows(procs[..i]) + RowsOf(p)[..j]
        {
          out := out + [Row(p.comm, p.pid, p.username, p.files[j])];
        }
        assert procs[..i + 1][..i] == procs[..i];
        assert RowsOf(p)[..|p.files|] == RowsOf(p);
      }
      assert procs[..|procs|] == procs;
    }

    /** The end of `main`: the three filters in turn, then the listing. */
    method ListFiltered(matches: Matcher, comm: string, kind: string, file: string) returns (out: seq<Row>)
      modifies this
      ensures out == Filter(AllRows(old(procs)), RowTest(matches, comm, kind, file))
      ensures TakenWhere(AllRows(old(procs)), out,
                         (r: Row) => && (comm == "" || matches(r.comm, comm))
                                     && (kind == "" || matches(r.file.kind, kind))
                                     && (file == "" || matches(r.file.name, file)))
      ensures forall r :: multiset(out)[r] ==
                if && (comm == "" || matches(r.comm, comm))
                   && (kind == "" || matches(r.file.kind, kind))
                   && (file == "" || matches(r.file.name, file))
                then multiset(AllRows(old(procs)))[r] else 0
    {
      ghost var rows, test := AllRows(procs), RowTest(matches, comm, kind, file);
      FilterTakes(rows, test, (r: Row) => && (comm == "" || matches(r.comm, comm))
                                          && (kind == "" || matches(r.file.kind, kind))
                                          && (file == "" || matches(r.file.name, file)));
      forall r ensures multiset(Filter(rows, test))[r] == if test(r) then multiset(rows)[r] else 0 {
        FilterCounts(rows, test, r);
      }
      PipelineRows(procs, matches, comm, kind, file);
      SearchComm(matches, comm);
      SearchType(matches, kind);
      SearchFile(matches, file);
      out := PrintAll();
    }
  }

  lemma {:induction false} FilterAll<T>(s: seq<T>, keep: T -> bool)
    requires forall x | x in s :: keep(x)
    ensures Filter(s, keep) == s
  {
    if s != [] {
      FilterAll(s[..|s| - 1], keep);
      assert s[..|s| - 1] + [s[|s| - 1]] == s;
    }
  }

  lemma KeepAllFiles(procs: seq<PidInfo>, keep: FileDescriptor -> bool)
    requires forall f :: keep(f)
    ensures KeepFiles(procs, keep) == procs
  {
    forall i | 0 <= i < |procs| ensures KeepFiles(procs, keep)[i] == procs[i] {
      FilterAll(procs[i].files, keep);
    }
  }

  // ----- what the pipeline prints -----

  /** A row is printed if it passes all three filters. */
  function RowTest(matches: Matcher, comm: string, kind: string, file: string): Row -> bool {
    (r: Row) => Passes(matches, r.comm, comm) && Passes(matches, r.file.kind, kind) && Passes(matches, r.file.name, file)
  }

  lemma {:induction false} FilterBoth<T>(s: seq<T>, keep1: T -> bool, keep2: T -> bool, both: T -> bool)
    requires forall x :: both(x) <==> keep1(x) && keep2(x)
    ensures Filter(Filter(s, keep1), keep2) == Filter(s, both)
    decreases |s|
  {
    if s != [] {
      var n := |s| - 1;
      FilterBoth(s[..n], keep1, keep2, both);
      FilterAppend(Filter(s[..n], keep1), if keep1(s[n]) then [s[n]] else [], keep2);
      FilterOne(s[n], keep2);
    }
  }

  lemma FilterOne<T>(x: T, keep: T -> bool)
    ensures Filter([x], keep) == if keep(x) then [x] else []
  {
  }

  /** The rows of a process with its files filtered are the rows of the process, filtered. */
  lemma {:induction false} FilteredRowsOf(p: PidInfo, keep: FileDescriptor -> bool, row: Row -> bool)
    requires forall f :: row(Row(p.comm, p.pid, p.username, f)) <==> keep(f)
    ensures RowsOf(p.(files := Filter(p.files, keep))) == Filter(RowsOf(p), row)
    decreases |p.files|
  {
    if p.files != [] {
      var n := |p.files| - 1;
      var q := p.(files := p.files[..n]);
      FilteredRowsOf(q, keep, row);
      var rows := RowsOf(p);
      assert rows[..n] == RowsOf(q);
    }
  }

  lemma {:induction false} NoRows(rows: seq<Row>, row: Row -> bool)
    requires forall r | r in rows :: !row(r)
    ensures Filter(rows, row) == []
  {
    if rows != [] {
      NoRows(rows[..|rows| - 1], row);
    }
  }

  function Both(matches: Matcher, kind: string, file: string): FileDescriptor -> bool {
    (f: FileDescriptor) => Passes(matches, f.kind, kind) && Passes(matches, f.name, file)
  }

  /** Filtering by type and then by name is filtering by both. */
  lemma KeepFilesBoth(procs: seq<PidInfo>, keep1: FileDescriptor -> bool, keep2: FileDescriptor -> bool, both: FileDescriptor -> bool)
    requires forall f :: both(f) <==> keep1(f) && keep2(f)
    ensures KeepFiles(KeepFiles(procs, keep1), keep2) == KeepFiles(procs, both)
  {
    forall i | 0 <= i < |procs|
      ensures KeepFiles(KeepFiles(procs, keep1), keep2)[i] == KeepFiles(procs, both)[i]
    {
      FilterBoth(procs[i].files, keep1, keep2, both);
    }
  }

  lemma {:induction false} RowsOfKept(procs: seq<PidInfo>, matches: Matcher, comm: string, kind: string, file: string)
    ensures AllRows(KeepFiles(KeepComm(procs, matches, comm), Both(matches, kind, file)))
         == Filter(AllRows(procs), RowTest(matches, comm, kind, file))
    decreases |procs|
  {
    if procs != [] {
      var n := |procs| - 1;
      var p, both, row := procs[n], Both(matches, kind, file), RowTest(matches, comm, kind, file);
      RowsOfKept(procs[..n], matches, comm, kind, file);
      FilterAppend(AllRows(procs[..n]), RowsOf(p), row);
      var kept := KeepComm(procs[..n], matches, comm);
      if Passes(matches, p.comm, comm) {
        FilteredRowsOf(p, both, row);
        var all := KeepFiles(kept + [p], both);
        assert all[..|kept|] == KeepFiles(kept, both);
      } else {
        NoRows(RowsOf(p), row);
        assert kept + [] == kept;
      }
    }
  }

  /** The pipeline prints exactly the entries that pass all three filters, in the original order. */
  lemma PipelineRows(procs: seq<PidInfo>, matches: Matcher, comm: string, kind: string, file: string)
    ensures AllRows(KeepFiles(KeepFiles(KeepComm(procs, matches, comm), KindTest(matches, kind)), NameTest(matches, file)))
         == Filter(AllRows(procs), RowTest(matches, comm, kind, file))
  {
    KeepFilesBoth(KeepComm(procs, matches, comm), KindTest(matches, kind), NameTest(matches, file), Both(matches, kind, file));
    RowsOfKept(procs, matches, comm, kind, file);
  }

  /** The two file filters commute. */
  lemma FileFiltersCommute(procs: seq<PidInfo>, keep1: FileDescriptor -> bool, keep2: FileDescriptor -> bool)
    ensures KeepFiles(KeepFiles(procs, keep1), keep2) == KeepFiles(KeepFiles(procs, keep2), keep1)
  {
    var both: FileDescriptor -> bool := f => keep1(f) && keep2(f);
    KeepFilesBoth(procs, keep1, keep2, both);
    KeepFilesBoth(procs, keep2, keep1, both);
  }

  /** The process filter commutes with either of them. */
  lemma {:induction false} CommFilterCommutes(procs: seq<PidInfo>, matches: Matcher, comm: string, keep: FileDescriptor -> bool)
    ensures KeepComm(KeepFiles(procs, keep), matches, comm) == KeepFiles(KeepComm(procs, matches, comm), keep)
    decreases |procs|
  {
    if procs != [] {
      var n := |procs| - 1;
      CommFilterCommutes(procs[..n], matches, comm, keep);
      assert KeepFiles(procs, keep)[..n] == KeepFiles(procs[..n], keep);
      var kept := KeepComm(procs[..n], matches, comm);
      assert KeepFiles(kept + [procs[n]], keep) == KeepFiles(kept, keep) + KeepFiles([procs[n]], keep);
      assert kept + [] == kept;
    }
  }

  // ----- mapped files, each once -----

  function Names(files: seq<FileDescriptor>): seq<string> {
    seq(|files|, i requires 0 <= i < |files| => files[i].name)
  }

  /** The words with a slash, each where it appears first. */
  function FirstAppearances(words: seq<string>): seq<string> {
    if words == [] then []
    else
      var w, before := words[|words| - 1], FirstAppearances(words[..|words| - 1]);
      if '/' in w && w !in before then before + [w] else before
  }

  lemma {:induction false} EachOnce(words: seq<string>)
    ensures var r := FirstAppearances(words);
            && (forall i, j :: 0 <= i < j < |r| ==> r[i] != r[j])
            && (forall w :: w in r <==> w in words && '/' in w)
    decreases |words|
  {
    if words != [] {
      EachOnce(words[..|words| - 1]);
    }
  }

  lemma {:induction false} OnlyAddedTo(words: seq<string>, k: nat)
    requires k <= |words|
    ensures FirstAppearances(words[..k]) <= FirstAppearances(words)
    decreases |words|
  {
    var n := |words| - 1;
    if k <= n {
      OnlyAddedTo(words[..n], k);
      assert words[..n][..k] == words[..k];
    } else {
      assert words[..k] == words;
    }
  }

  /** No word twice, exactly the words with a slash, and a longer input only adds at the end. */
  lemma FirstAppearancesAre(words: seq<string>, k: nat)
    requires k <= |words|
    ensures var r := FirstAppearances(words);
            && (forall i, j :: 0 <= i < j < |r| ==> r[i] != r[j])
            && (forall w :: w in r <==> w in words && '/' in w)
            && FirstAppearances(words[..k]) <= r
  {
    EachOnce(words);
    OnlyAddedTo(words, k);
  }

  /** `get_mem`, on the words of the map file; every entry shares `node` and `kind`. */
  method GetMem(words: seq<string>, node: string, kind: string) returns (result: seq<FileDescriptor>)
    ensures Names(result) == FirstAppearances(words)
    ensures forall f | f in result :: f.fd == "mem" && f.node == node && f.kind == kind
  {
    result := [];
    for k := 0 to |words|
      invariant Names(result) == FirstAppearances(words[..k])
      invariant forall f | f in result :: f.fd == "mem" && f.node == node && f.kind == kind
    {
      var word := words[k];
      assert words[..k + 1][..k] == words[..k];
      if '/' in word {
        result := AddOnce(result, FileDescriptor("mem", kind, node, word));
      }
    }
    assert words[..|words|] == words;
  }

  /** The scan that may append to the vector it scans. */
  method AddOnce(files: seq<FileDescriptor>, entry: FileDescriptor) returns (result: seq<FileDescriptor>)
    ensures result == if entry.name in Names(files) then files else files + [entry]
    ensures Names(result) == if entry.name in Names(files) then Names(files) else Names(files) + [entry.name]
  {
    result := files;
    if |result| == 0 {
      result := result + [entry];
    }
    var i := 0;
    while i < |result|
      invariant i <= |result|
      invariant result == files || (result == files + [entry] && entry.name !in Names(files) && i <= |files|)
      invariant result == files ==> i < |files| && forall k :: 0 <= k < i ==> files[k].name != entry.name
      decreases result == files, |result| - i
    {
      if result[i].name == entry.name {
        assert result == files ==> Names(files)[i] == entry.name;
        break;
      } else if i == |result| - 1 {
        result := result + [entry];
      }
      i := i + 1;
    }
  }
}
