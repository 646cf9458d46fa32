/**
 The Pyright package scanner: a recursive walk that collects one record per regular file and a
 running byte total under fixed limits, then the tree identity computed from the sorted records.
 */
module TreeScan {
  import opened Options
  import opened PathText
  import opened TreePreimage

  const MAX_PACKAGE_FILES := 10_000
  const MAX_PACKAGE_BYTES := 64 * 1024 * 1024
  const MAX_PACKAGE_FILE_BYTES := 16 * 1024 * 1024
  const MAX_RELATIVE_PATH_BYTES := 4096
  const MAX_DIRECTORY_DEPTH := 32
  const TREE_DOMAIN := "nplg-pyright-package-tree-v1" + [NUL]

  datatype Node = Folder(listing: Listing) | Regular(content: string, links: nat) | Special

  datatype Listing = End | Entry(name: string, node: Node, rest: Listing)

  /** A regular file of the tree: its path components and its bytes. */
  datatype Found = Found(parts: seq<string>, content: string)

  // ----------------------------------------------------------- the tree's files

  function FilesOf(parts: seq<string>, l: Listing): seq<Found>
    decreases l
  {
    match l
    case End => []
    case Entry(name, node, rest) => FilesAt(parts + [name], node) + FilesOf(parts, rest)
  }

  function FilesAt(parts: seq<string>, node: Node): seq<Found>
    decreases node
  {
    match node
    case Folder(sub) => FilesOf(parts, sub)
    case Regular(content, _) => [Found(parts, content)]
    case Special => []
  }

  ghost predicate ValidName(name: string) {
    name != "" && '/' !in name && NUL !in name
  }

  /** What the walk demands of every entry. */
  ghost predicate Admissible(parts: seq<string>, l: Listing)
    decreases l
  {
    match l
    case End => true
    case Entry(name, node, rest) =>
      AdmissiblePath(parts, name) && AdmissibleNode(parts + [name], node) && Admissible(parts, rest)
  }

  ghost predicate AdmissiblePath(parts: seq<string>, name: string) {
    ValidName(name) && |Join(parts + [name])| <= MAX_RELATIVE_PATH_BYTES
  }

  ghost predicate AdmissibleNode(parts: seq<string>, node: Node)
    decreases node
  {
    match node
    case Folder(sub) => |parts| <= MAX_DIRECTORY_DEPTH && Admissible(parts, sub)
    case Regular(content, links) => links == 1 && |content| <= MAX_PACKAGE_FILE_BYTES
    case Special => false
  }

  function RecordOf(hash: string -> Digest, f: Found): Record {
    Record(Join(f.parts), |f.content|, hash(f.content))
  }

  function Records(hash: string -> Digest, files: seq<Found>): (records: seq<Record>)
    ensures |records| == |files|
  {
    seq(|files|, k requires 0 <= k < |files| => RecordOf(hash, files[k]))
  }

  function SumSizes(records: seq<Record>): nat {
    if records == [] then 0 else SumSizes(records[..|records| - 1]) + records[|records| - 1].size
  }

  lemma {:induction false} SumAppend(a: seq<Record>, b: seq<Record>)
    ensures SumSizes(a + b) == SumSizes(a) + SumSizes(b)
    decreases |b|
  {
    if b == [] {
      assert a + b == a;
    } else {
      SumAppend(a, b[..|b| - 1]);
      assert (a + b)[..|a + b| - 1] == a + b[..|b| - 1];
    }
  }

  /** Together with the records so far, the new ones stay within both package limits. */
  ghost predicate Within(records: seq<Record>) {
    |records| <= MAX_PACKAGE_FILES && SumSizes(records) <= MAX_PACKAGE_BYTES
  }

  lemma WithinPrefix(a: seq<Record>, b: seq<Record>)
    requires Within(a + b)
    ensures Within(a)
  {
    SumAppend(a, b);
  }

  lemma RecordsAppend(hash: string -> Digest, a: seq<Found>, b: seq<Found>)
    ensures Records(hash, a + b) == Records(hash, a) + Records(hash, b)
  {
  }

  lemma EntryStep(parts: seq<string>, l: Listing)
    requires l.Entry?
    ensures FilesOf(parts, l) == FilesAt(parts + [l.name], l.node) + FilesOf(parts, l.rest)
    ensures Admissible(parts, l) <==>
            AdmissiblePath(parts, l.name) && AdmissibleNode(parts + [l.name], l.node) && Admissible(parts, l.rest)
    ensures EntryCalls(l) == 1 + NodeCalls(l.node) + EntryCalls(l.rest)
  {
  }

  /** If all the files fit then so do the first ones. */
  lemma PartFits(hash: string -> Digest, before: seq<Record>, done: seq<Found>, more: seq<Found>, rest: seq<Found>)
    ensures before + Records(hash, done) + Records(hash, more) == before + Records(hash, done + more)
    ensures done + more + rest == done + (more + rest)
    ensures Within(before + Records(hash, done + (more + rest))) ==>
              Within(before + Records(hash, done) + Records(hash, more))
  {
    RecordsAppend(hash, done, more);
    RecordsAppend(hash, done + more, rest);
    assert done + more + rest == done + (more + rest);
    var first := before + Records(hash, done + more);
    assert first + Records(hash, rest) == before + Records(hash, done + (more + rest));
    hide Within;
    if Within(first + Records(hash, rest)) { WithinPrefix(first, Records(hash, rest)); }
  }

  lemma NothingLeft(parts: seq<string>, done: seq<Found>, l: Listing)
    requires l.End?
    ensures done + FilesOf(parts, l) == done && Admissible(parts, l) && EntryCalls(l) == 0
  {
  }

  lemma NothingDone(hash: string -> Digest, before: seq<Record>, files: seq<Found>)
    ensures before + Records(hash, []) == before && [] + files == files
  {
  }

  // ------------------------------------------------------------------- its calls

  /** How many calls a complete visit makes: a look before and after each directory, one per entry and per file. */
  ghost function CallsOf(l: Listing): nat {
    2 + EntryCalls(l)
  }

  ghost function EntryCalls(l: Listing): nat
    decreases l
  {
    match l
    case End => 0
    case Entry(_, node, rest) => 1 + NodeCalls(node) + EntryCalls(rest)
  }

  ghost function NodeCalls(node: Node): nat
    decreases node
  {
    match node
    case Folder(sub) => 2 + EntryCalls(sub)
    case Regular(_, _) => 1
    case Special => 0
  }

  /** No call from `a` up to `b` fails. */
  ghost predicate Smooth(fails: nat -> bool, a: nat, b: nat) {
    forall k | a <= k < b :: !fails(k)
  }

  lemma SmoothSplits(fails: nat -> bool, a: nat, b: nat, c: nat)
    requires a <= b <= c
    ensures Smooth(fails, a, c) <==> Smooth(fails, a, b) && Smooth(fails, b, c)
  {
  }

  lemma OneCall(fails: nat -> bool, a: nat)
    ensures Smooth(fails, a, a + 1) <==> !fails(a)
    ensures Smooth(fails, a, a)
  {
  }

  class TreeScanner {
    const hash: string -> Digest
    const fails: nat -> bool
    var calls: nat
    var records: seq<Record>
    var totalBytes: nat

    constructor (hash: string -> Digest, fails: nat -> bool)
      ensures this.hash == hash && this.fails == fails && records == [] && totalBytes == 0
    {
      this.hash, this.fails, calls, records, totalBytes := hash, fails, 0, [], 0;
    }

    ghost predicate Valid()
      reads this
    {
      totalBytes == SumSizes(records) && Within(records)
    }

    /** Lookups, opens, reads and the re-checks around them: any of them may fail. */
    method Call() returns (ok: bool)
      modifies `calls
      ensures ok == !fails(old(calls)) && calls == old(calls) + 1
    {
      ok := !fails(calls);
      calls := calls + 1;
    }

    method VisitFile(parts: seq<string>, content: string, links: nat) returns (ok: bool)
      requires Valid()
      modifies this
      ensures var more := Records(hash, [Found(parts, content)]);
              && (ok ==> Valid() && records == old(records) + more && calls == old(calls) + 1)
              && (ok <==> && AdmissibleNode(parts, Regular(content, links)) && Within(old(records) + more)
                          && !fails(old(calls)))
    {
      ghost var more := Records(hash, [Found(parts, content)]);
      var record := Record(Join(parts), |content|, hash(content));
      assert more == [record];
      SumAppend(records, [record]);
      assert SumSizes([record]) == |content|;
      ok := Call();
      if !ok { return; }
      if links != 1 || |content| > MAX_PACKAGE_FILE_BYTES { return false; }
      totalBytes := totalBytes + |content|;
      if totalBytes > MAX_PACKAGE_BYTES { return false; }
      records := records + [record];
      ok := |records| <= MAX_PACKAGE_FILES;
    }

    /** The path of an entry; an empty, slashed or NUL name or too long a path raises. */
    method RelativePath(parts: seq<string>, name: string) returns (r: Checked<seq<string>>)
      ensures r == if AdmissiblePath(parts, name) then Ok(parts + [name]) else Raised
    {
      if name == "" || '/' in name || NUL in name { return Raised; }
      if |Join(parts + [name])| > MAX_RELATIVE_PATH_BYTES { return Raised; }
      return Ok(parts + [name]);
    }

    method VisitEntry(parts: seq<string>, name: string, node: Node) returns (ok: bool)
      requires Valid()
      modifies this
      ensures ok ==> Valid() && records == old(records) + Records(hash, FilesAt(parts + [name], node))
      ensures ok ==> calls == old(calls) + 1 + NodeCalls(node)
      ensures ok <==> && AdmissiblePath(parts, name) && AdmissibleNode(parts + [name], node)
                      && Within(old(records) + Records(hash, FilesAt(parts + [name], node)))
                      && Smooth(fails, old(calls), old(calls) + 1 + NodeCalls(node))
      decreases node, 0
    {
      var path := RelativePath(parts, name);
      if path.Raised? { return false; }
      hide AdmissiblePath;
      SmoothSplits(fails, calls, calls + 1, calls + 1 + NodeCalls(node));
      OneCall(fails, calls);
      OneCall(fails, calls + 1);
      hide Smooth;
      hide Within;
      hide Records;
      ok := Call();
      if !ok { return; }
      match node {
        case Folder(sub) => ok := Visit(path.value, sub);
        case Regular(content, links) => ok := VisitFile(path.value, content, links);
        case Special => ok := false;
      }
    }

    /** Visits one directory: on success exactly its files have been recorded. */
    method Visit(parts: seq<string>, l: Listing) returns (ok: bool)
      requires Valid()
      modifies this
      ensures ok ==> Valid() && records == old(records) + Records(hash, FilesOf(parts, l))
      ensures ok ==> calls == old(calls) + CallsOf(l)
      ensures ok <==> && |parts| <= MAX_DIRECTORY_DEPTH && Admissible(parts, l)
                      && Within(old(records) + Records(hash, FilesOf(parts, l)))
                      && Smooth(fails, old(calls), old(calls) + CallsOf(l))
      decreases l, 1
    {
      hide FilesOf;
      hide FilesAt;
      hide Admissible;
      hide AdmissiblePath;
      hide AdmissibleNode;
      hide Records;
      hide Within;
      hide SumSizes;
      hide Smooth;
      hide EntryCalls;
      hide NodeCalls;
      if |parts| > MAX_DIRECTORY_DEPTH { return false; }
      ghost var c0, total := calls, CallsOf(l);
      SmoothSplits(fails, c0, c0 + 1, c0 + total);
      OneCall(fails, c0);
      ok := Call();
      if !ok { return; }
      var rest := l;
      ghost var done: seq<Found> := [];
      NothingDone(hash, records, FilesOf(parts, l));
      while rest.Entry?
        invariant Valid() && records == old(records) + Records(hash, done)
                  && FilesOf(parts, l) == done + FilesOf(parts, rest)
        invariant Admissible(parts, l) <==> Admissible(parts, rest)
        invariant c0 <= calls && calls + EntryCalls(rest) + 1 == c0 + total && Smooth(fails, c0, calls)
        decreases rest
      {
        ghost var more := FilesAt(parts + [rest.name], rest.node);
        EntryStep(parts, rest);
        ghost var before, next := calls, calls + 1 + NodeCalls(rest.node);
        SmoothSplits(fails, c0, before, next);
        SmoothSplits(fails, c0, next, c0 + total);
        PartFits(hash, old(records), done, more, FilesOf(parts, rest.rest));
        ok := VisitEntry(parts, rest.name, rest.node);
        if !ok { return; }
        done, rest := done + more, rest.rest;
      }
      NothingLeft(parts, done, rest);
      SmoothSplits(fails, c0, calls, c0 + total);
      OneCall(fails, calls);
      ok := Call();
    }

    /** The records of the whole tree, in path order. */
    method Scan(root: Listing) returns (r: Checked<seq<Record>>)
      requires records == [] && totalBytes == 0
      modifies this
      ensures r.Ok? ==> && r.value == SortByPath(Records(hash, FilesOf([], root)))
                        && totalBytes == SumSizes(Records(hash, FilesOf([], root)))
                        && calls == old(calls) + CallsOf(root)
      ensures r.Ok? <==> && Admissible([], root) && Within(Records(hash, FilesOf([], root)))
                         && Smooth(fails, old(calls), old(calls) + CallsOf(root))
    {
      var ok := Visit([], root);
      assert [] + Records(hash, FilesOf([], root)) == Records(hash, FilesOf([], root));
      if !ok { return Raised; }
      return Ok(SortByPath(records));
    }
  }

  // ---------------------------------------------------------------- path order

  /** Byte strings in lexicographic order. */
  predicate LexLe(a: string, b: string) {
    a == "" || (b != "" && (a[0] < b[0] || (a[0] == b[0] && LexLe(a[1..], b[1..]))))
  }

  lemma {:induction false} LexTotal(a: string, b: string)
    ensures LexLe(a, b) || LexLe(b, a)
  {
    if a != "" && b != "" && a[0] == b[0] { LexTotal(a[1..], b[1..]); }
  }

  lemma {:induction false} LexTransitive(a: string, b: string, c: string)
    requires LexLe(a, b) && LexLe(b, c)
    ensures LexLe(a, c)
  {
    if a != "" && a[0] == b[0] && b[0] == c[0] { LexTransitive(a[1..], b[1..], c[1..]); }
  }

  lemma {:induction false} LexAntisymmetric(a: string, b: string)
    requires LexLe(a, b) && LexLe(b, a)
    ensures a == b
  {
    if a != "" {
      LexAntisymmetric(a[1..], b[1..]);
      assert a == [a[0]] + a[1..] && b == [b[0]] + b[1..];
    }
  }

  predicate Sorted(records: seq<Record>) {
    forall i, j | 0 <= i < j < |records| :: LexLe(records[i].path, records[j].path)
  }

  ghost predicate DistinctPaths(records: seq<Record>) {
    forall i, j | 0 <= i < j < |records| :: records[i].path != records[j].path
  }

  function Insert(sorted: seq<Record>, r: Record): seq<Record> {
    var n := |sorted|;
    if n == 0 || LexLe(sorted[n - 1].path, r.path) then sorted + [r]
    else Insert(sorted[..n - 1], r) + [sorted[n - 1]]
  }

  /** A stable sort by path. */
  function SortByPath(records: seq<Record>): seq<Record> {
    if records == [] then [] else Insert(SortByPath(records[..|records| - 1]), records[|records| - 1])
  }

  lemma {:induction false} InsertKeepsRecords(sorted: seq<Record>, r: Record)
    ensures multiset(Insert(sorted, r)) == multiset(sorted) + multiset{r}
  {
    var n := |sorted|;
    if n > 0 && !LexLe(sorted[n - 1].path, r.path) {
      InsertKeepsRecords(sorted[..n - 1], r);
      assert sorted == sorted[..n - 1] + [sorted[n - 1]];
    }
  }

  lemma {:induction false} InsertKeepsOrder(sorted: seq<Record>, r: Record)
    requires Sorted(sorted)
    ensures Sorted(Insert(sorted, r))
  {
    var n := |sorted|;
    if n > 0 && !LexLe(sorted[n - 1].path, r.path) {
      var front, last := Insert(sorted[..n - 1], r), sorted[n - 1];
      InsertKeepsOrder(sorted[..n - 1], r);
      InsertKeepsRecords(sorted[..n - 1], r);
      forall x | x in front ensures LexLe(x.path, last.path) {
        assert x in multiset(front);
        if x == r { LexTotal(r.path, last.path); } else { assert x in sorted[..n - 1]; }
      }
    } else if n > 0 {
      forall k | 0 <= k < n ensures LexLe(sorted[k].path, r.path) {
        if k < n - 1 { LexTransitive(sorted[k].path, sorted[n - 1].path, r.path); }
      }
    }
  }

  lemma {:induction false} SortIsSorted(records: seq<Record>)
    ensures Sorted(SortByPath(records)) && multiset(SortByPath(records)) == multiset(records)
  {
    if records != [] {
      var front, last := records[..|records| - 1], records[|records| - 1];
      SortIsSorted(front);
      InsertKeepsOrder(SortByPath(front), last);
      InsertKeepsRecords(SortByPath(front), last);
      assert records == front + [last];
    }
  }

  lemma LastIsGreatest(a: seq<Record>, r: Record)
    requires Sorted(a) && r in a
    ensures LexLe(r.path, a[|a| - 1].path)
  {
    LexTotal(r.path, r.path);
  }

  lemma LastsAgree(a: seq<Record>, b: seq<Record>)
    requires Sorted(a) && Sorted(b) && multiset(a) == multiset(b) && DistinctPaths(a) && a != []
    ensures |a| == |b| && a[|a| - 1] == b[|b| - 1]
  {
    assert |multiset(a)| == |a| && |multiset(b)| == |b|;
    var x, y := a[|a| - 1], b[|b| - 1];
    assert y in multiset(b) && x in multiset(a);
    LastIsGreatest(a, y);
    LastIsGreatest(b, x);
    LexAntisymmetric(x.path, y.path);
    hide Sorted;
    hide LexLe;
    var k :| 0 <= k < |a| && a[k] == y;
    assert k == |a| - 1;
  }

  lemma FrontOf(a: seq<Record>)
    requires a != []
    ensures multiset(a) == multiset(a[..|a| - 1]) + multiset{a[|a| - 1]}
    ensures Sorted(a) ==> Sorted(a[..|a| - 1])
    ensures DistinctPaths(a) ==> DistinctPaths(a[..|a| - 1])
  {
    assert a == a[..|a| - 1] + [a[|a| - 1]];
  }

  lemma CancelOne(x: multiset<Record>, y: multiset<Record>, r: Record)
    requires x + multiset{r} == y + multiset{r}
    ensures x == y
  {
    assert x == x + multiset{r} - multiset{r} && y == y + multiset{r} - multiset{r};
  }

  /** Records with different paths have only one sorted arrangement. */
  lemma {:induction false} SortedIsUnique(a: seq<Record>, b: seq<Record>)
    requires Sorted(a) && Sorted(b) && multiset(a) == multiset(b) && DistinctPaths(a)
    ensures a == b
  {
    hide Sorted;
    hide DistinctPaths;
    if a == [] {
      assert |multiset(b)| == 0;
    } else {
      var n := |a| - 1;
      LastsAgree(a, b);
      FrontOf(a);
      FrontOf(b);
      CancelOne(multiset(a[..n]), multiset(b[..n]), a[n]);
      SortedIsUnique(a[..n], b[..n]);
      assert a == a[..n] + [a[n]] && b == b[..n] + [b[n]];
    }
  }

  lemma SortIsCanonical(a: seq<Record>, b: seq<Record>)
    requires DistinctPaths(a) && DistinctPaths(b)
    ensures SortByPath(a) == SortByPath(b) <==> multiset(a) == multiset(b)
  {
    SortIsSorted(a);
    SortIsSorted(b);
    if multiset(a) == multiset(b) {
      DistinctIsPermuted(a, SortByPath(a));
      SortedIsUnique(SortByPath(a), SortByPath(b));
    }
  }

  /** Different paths, said of the multiset: no path carries two records. */
  lemma DistinctIsPermuted(a: seq<Record>, b: seq<Record>)
    requires DistinctPaths(a) && multiset(a) == multiset(b)
    ensures DistinctPaths(b)
  {
    forall i, j | 0 <= i < j < |b| ensures b[i].path != b[j].path {
      if b[i].path == b[j].path {
        assert b[i] in multiset(b) && b[j] in multiset(b);
        var x, y :| 0 <= x < |a| && 0 <= y < |a| && a[x] == b[i] && a[y] == b[j];
        assert x == y;
        OnceInDistinct(a, x);
        TwiceInSequence(b, i, j);
        assert false;
      }
    }
  }

  lemma OnceInDistinct(a: seq<Record>, x: nat)
    requires DistinctPaths(a) && x < |a|
    ensures multiset(a)[a[x]] == 1
  {
    assert a == a[..x] + [a[x]] + a[x + 1..];
    assert a[x] !in a[..x] && a[x] !in a[x + 1..];
    assert multiset(a) == multiset(a[..x]) + multiset{a[x]} + multiset(a[x + 1..]);
  }

  lemma TwiceInSequence(b: seq<Record>, i: nat, j: nat)
    requires i < j < |b| && b[i] == b[j]
    ensures multiset(b)[b[i]] >= 2
  {
    assert b == b[..i] + [b[i]] + b[i + 1..j] + [b[j]] + b[j + 1..];
  }

  // ------------------------------------------------------- the files of a real tree

  ghost predicate HasName(l: Listing, name: string)
    decreases l
  {
    l.Entry? && (l.name == name || HasName(l.rest, name))
  }

  /** No directory lists a name twice. */
  ghost predicate Unrepeated(l: Listing)
    decreases l
  {
    l.Entry? ==> !HasName(l.rest, l.name) && UnrepeatedNode(l.node) && Unrepeated(l.rest)
  }

  ghost predicate UnrepeatedNode(node: Node)
    decreases node
  {
    node.Folder? ==> Unrepeated(node.listing)
  }

  predicate AllPlain(parts: seq<string>) {
    forall k | 0 <= k < |parts| :: Plain(parts[k])
  }

  /** Every file lies below its directory, through a listed name, within the limits. */
  ghost predicate LiesBelow(parts: seq<string>, l: Listing, f: Found) {
    && parts < f.parts && HasName(l, f.parts[|parts|]) && AllPlain(f.parts)
    && |Join(f.parts)| <= MAX_RELATIVE_PATH_BYTES && |f.content| <= MAX_PACKAGE_FILE_BYTES
  }

  lemma {:induction false} FilesLieBelow(parts: seq<string>, l: Listing, k: nat)
    requires AllPlain(parts) && Admissible(parts, l) && k < |FilesOf(parts, l)|
    ensures LiesBelow(parts, l, FilesOf(parts, l)[k])
    decreases l
  {
    EntryStep(parts, l);
    var below, first := parts + [l.name], FilesAt(parts + [l.name], l.node);
    if k < |first| {
      if l.node.Folder? {
        assert AdmissibleNode(below, l.node);
        FilesLieBelow(below, l.node.listing, k);
        assert FilesOf(parts, l)[k] == FilesOf(below, l.node.listing)[k];
        assert below[|parts|] == l.name;
      } else {
        assert FilesOf(parts, l)[k] == Found(below, l.node.content);
      }
    } else {
      FilesLieBelow(parts, l.rest, k - |first|);
    }
  }

  lemma {:induction false} FilesAreDistinct(parts: seq<string>, l: Listing, i: nat, j: nat)
    requires AllPlain(parts) && Admissible(parts, l) && Unrepeated(l) && i < j < |FilesOf(parts, l)|
    ensures FilesOf(parts, l)[i].parts != FilesOf(parts, l)[j].parts
    decreases l
  {
    EntryStep(parts, l);
    var below, first, rest := parts + [l.name], FilesAt(parts + [l.name], l.node), FilesOf(parts, l.rest);
    if j < |first| {
      assert l.node.Folder? && AdmissibleNode(below, l.node) && UnrepeatedNode(l.node);
      FilesAreDistinct(below, l.node.listing, i, j);
    } else if |first| <= i {
      FilesAreDistinct(parts, l.rest, i - |first|, j - |first|);
    } else {
      FilesLieBelow(parts, l.rest, j - |first|);
      FirstFileUsesName(parts, l, i);
    }
  }

  lemma FirstFileUsesName(parts: seq<string>, l: Listing, i: nat)
    requires l.Entry? && AllPlain(parts) && Admissible(parts, l) && i < |FilesAt(parts + [l.name], l.node)|
    ensures var f := FilesAt(parts + [l.name], l.node)[i]; |f.parts| > |parts| && f.parts[|parts|] == l.name
  {
    EntryStep(parts, l);
    var below := parts + [l.name];
    if l.node.Folder? {
      assert AdmissibleNode(below, l.node);
      FilesLieBelow(below, l.node.listing, i);
    }
    assert below[|parts|] == l.name;
  }

  lemma JoinIsInjective(a: seq<string>, b: seq<string>)
    requires AllPlain(a) && AllPlain(b) && a != [] && b != [] && Join(a) == Join(b)
    ensures a == b
  {
    SplitJoin(a);
    SplitJoin(b);
  }

  /** A tree the scanner can accept, as the file system presents it. */
  ghost predicate Readable(root: Listing) {
    Unrepeated(root) && Admissible([], root)
  }

  lemma ReadableRecords(hash: string -> Digest, root: Listing)
    requires Readable(root)
    ensures DistinctPaths(Records(hash, FilesOf([], root))) && AllEncodable(Records(hash, FilesOf([], root)))
  {
    var files := FilesOf([], root);
    var records := Records(hash, files);
    forall k | 0 <= k < |files| ensures Encodable(records[k]) { FilesLieBelow([], root, k); }
    forall i, j | 0 <= i < j < |files| ensures records[i].path != records[j].path {
      FilesLieBelow([], root, i);
      FilesLieBelow([], root, j);
      FilesAreDistinct([], root, i, j);
      if records[i].path == records[j].path { JoinIsInjective(files[i].parts, files[j].parts); }
    }
  }

  /** Following `parts` from the listing leads to a regular file with these bytes. */
  ghost predicate HoldsFile(l: Listing, parts: seq<string>, content: string)
    decreases l
  {
    && parts != [] && l.Entry?
    && (|| (l.name == parts[0] && if |parts| == 1 then l.node.Regular? && l.node.content == content
                                  else HoldsBelow(l.node, parts[1..], content))
        || HoldsFile(l.rest, parts, content))
  }

  ghost predicate HoldsBelow(node: Node, parts: seq<string>, content: string)
    decreases node
  {
    node.Folder? && HoldsFile(node.listing, parts, content)
  }

  lemma {:induction false} HeldIsFound(pre: seq<string>, l: Listing, parts: seq<string>, content: string)
    requires HoldsFile(l, parts, content)
    ensures Found(pre + parts, content) in FilesOf(pre, l)
    decreases l
  {
    EntryStep(pre, l);
    if HoldsFile(l.rest, parts, content) {
      HeldIsFound(pre, l.rest, parts, content);
    } else if |parts| == 1 {
      assert pre + parts == pre + [l.name];
    } else {
      assert HoldsBelow(l.node, parts[1..], content);
      HeldIsFound(pre + [l.name], l.node.listing, parts[1..], content);
      assert pre + [l.name] + parts[1..] == pre + parts;
    }
  }

  lemma {:induction false} FoundIsHeld(pre: seq<string>, l: Listing, f: Found)
    requires f in FilesOf(pre, l)
    ensures pre < f.parts && HoldsFile(l, f.parts[|pre|..], f.content)
    decreases l
  {
    EntryStep(pre, l);
    if f in FilesOf(pre, l.rest) {
      FoundIsHeld(pre, l.rest, f);
    } else if l.node.Folder? {
      var below := pre + [l.name];
      FoundIsHeld(below, l.node.listing, f);
      assert f.parts[|pre|] == below[|pre|] == l.name;
      assert f.parts[|pre|..][1..] == f.parts[|below|..];
      assert HoldsBelow(l.node, f.parts[|below|..], f.content);
    } else {
      assert f.parts[|pre|..] == [l.name];
    }
  }

  /** The walk finds exactly the regular files of the tree, each under its own path. */
  lemma FilesAreTheTree(root: Listing, f: Found)
    ensures f in FilesOf([], root) <==> HoldsFile(root, f.parts, f.content)
  {
    if f in FilesOf([], root) {
      FoundIsHeld([], root, f);
      assert f.parts[0..] == f.parts;
    }
    if HoldsFile(root, f.parts, f.content) {
      HeldIsFound([], root, f.parts, f.content);
      assert [] + f.parts == f.parts;
    }
  }

  // -------------------------------------------------------------- the identity

  ghost function Preimage(hash: string -> Digest, root: Listing): string {
    TREE_DOMAIN + Encode(SortByPath(Records(hash, FilesOf([], root))))
  }

  /** The bytes fed to the digest, record by record, with the totals reported beside it. */
  method TreeIdentity(records: seq<Record>) returns (preimage: string, count: nat, totalBytes: nat)
    ensures preimage == TREE_DOMAIN + Encode(records) && count == |records| && totalBytes == SumSizes(records)
  {
    preimage, totalBytes := TREE_DOMAIN, 0;
    var i := 0;
    assert records[0..] == records;
    hide EncodeRecord;
    while i < |records|
      invariant i <= |records| && preimage + Encode(records[i..]) == TREE_DOMAIN + Encode(records)
      invariant totalBytes == SumSizes(records[..i])
    {
      assert records[i..][1..] == records[i + 1..] && records[..i + 1][..i] == records[..i];
      assert preimage + (EncodeRecord(records[i]) + Encode(records[i + 1..]))
          == preimage + EncodeRecord(records[i]) + Encode(records[i + 1..]);
      totalBytes := totalBytes + records[i].size;
      preimage := preimage + EncodeRecord(records[i]);
      i := i + 1;
    }
    assert records[i..] == [] && records[..i] == records && preimage + "" == preimage;
    count := |records|;
  }

  /** The content digest tells apart the contents that occur in the two trees. */
  ghost predicate NoCollision(hash: string -> Digest, a: seq<Found>, b: seq<Found>) {
    forall f, g | f in a && g in b && hash(f.content) == hash(g.content) :: f.content == g.content
  }

  ghost predicate SameFiles(a: seq<Found>, b: seq<Found>) {
    forall f :: f in a <==> f in b
  }

  lemma RecordsTellFiles(hash: string -> Digest, a: Listing, b: Listing)
    requires Readable(a) && Readable(b) && NoCollision(hash, FilesOf([], a), FilesOf([], b))
    requires multiset(Records(hash, FilesOf([], a))) == multiset(Records(hash, FilesOf([], b)))
    ensures forall f | f in FilesOf([], a) :: f in FilesOf([], b)
  {
    var xs, ys := FilesOf([], a), FilesOf([], b);
    forall f | f in xs ensures f in ys {
      var i :| 0 <= i < |xs| && xs[i] == f;
      assert Records(hash, xs)[i] in multiset(Records(hash, xs));
      var j :| 0 <= j < |ys| && Records(hash, ys)[j] == Records(hash, xs)[i];
      FilesLieBelow([], a, i);
      FilesLieBelow([], b, j);
      JoinIsInjective(xs[i].parts, ys[j].parts);
      assert ys[j] in ys && ys[j] == f;
    }
  }

  lemma FilesTellRecords(hash: string -> Digest, xs: seq<Found>, ys: seq<Found>)
    requires DistinctPaths(Records(hash, xs)) && DistinctPaths(Records(hash, ys)) && SameFiles(xs, ys)
    ensures multiset(Records(hash, xs)) == multiset(Records(hash, ys))
  {
    forall r ensures multiset(Records(hash, xs))[r] == multiset(Records(hash, ys))[r] {
      CountRecord(hash, xs, ys, r);
      CountRecord(hash, ys, xs, r);
    }
  }

  lemma CountRecord(hash: string -> Digest, xs: seq<Found>, ys: seq<Found>, r: Record)
    requires DistinctPaths(Records(hash, xs)) && DistinctPaths(Records(hash, ys)) && SameFiles(xs, ys)
    ensures multiset(Records(hash, xs))[r] <= multiset(Records(hash, ys))[r]
  {
    if r in Records(hash, xs) {
      var i :| 0 <= i < |xs| && Records(hash, xs)[i] == r;
      OnceInDistinct(Records(hash, xs), i);
      assert xs[i] in ys;
      var j :| 0 <= j < |ys| && ys[j] == xs[i];
      OnceInDistinct(Records(hash, ys), j);
      assert Records(hash, ys)[j] == r;
    }
  }

  /**
   Two readable trees feed the same bytes to the digest exactly when they hold the same files:
   the same paths with the same contents, in whatever order their directories list them.
   */
  lemma PreimageIdentifiesTree(hash: string -> Digest, a: Listing, b: Listing)
    requires Readable(a) && Readable(b)
    requires NoCollision(hash, FilesOf([], a), FilesOf([], b)) && NoCollision(hash, FilesOf([], b), FilesOf([], a))
    ensures Preimage(hash, a) == Preimage(hash, b) <==> SameFiles(FilesOf([], a), FilesOf([], b))
  {
    var xs, ys := Records(hash, FilesOf([], a)), Records(hash, FilesOf([], b));
    ReadableRecords(hash, a);
    ReadableRecords(hash, b);
    SortIsCanonical(xs, ys);
    if SameFiles(FilesOf([], a), FilesOf([], b)) {
      FilesTellRecords(hash, FilesOf([], a), FilesOf([], b));
    }
    if Preimage(hash, a) == Preimage(hash, b) {
      SortKeepsEncodable(xs);
      SortKeepsEncodable(ys);
      PrefixCancels(TREE_DOMAIN, Encode(SortByPath(xs)), Encode(SortByPath(ys)));
      EqualStreamsEqualRecords(SortByPath(xs), SortByPath(ys));
      RecordsTellFiles(hash, a, b);
      RecordsTellFiles(hash, b, a);
    }
  }

  lemma SortKeepsEncodable(records: seq<Record>)
    requires AllEncodable(records)
    ensures AllEncodable(SortByPath(records))
  {
    SortIsSorted(records);
    var sorted := SortByPath(records);
    forall k | 0 <= k < |sorted| ensures Encodable(sorted[k]) {
      assert sorted[k] in multiset(sorted);
      assert sorted[k] in records;
    }
  }

  lemma PrefixCancels(p: string, a: string, b: string)
    requires p + a == p + b
    ensures a == b
  {
    assert (p + a)[|p|..] == a && (p + b)[|p|..] == b;
  }
}
