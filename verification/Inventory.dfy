/**
 The bounded inventory of a mutation workspace: a worklist of open directory descriptors, a set
 of relative paths found and a count of entries visited.  Any call may fail at any entry.
 */
module Inventory {
  import opened Options
  import opened PathText

  datatype Node = Directory(listing: Listing) | Regular(links: nat) | Special

  /** What one directory scan yields, in its order. */
  datatype Listing = End | Entry(name: string, node: Node, rest: Listing)

  function Below(prefix: string, name: string): string {
    if prefix == "" then name else prefix + "/" + name
  }

  /** The path compared with the repository's own metadata directory. */
  predicate Skipped(relative: string) {
    relative == ".git"
  }

  // ------------------------------------------------------------ what a scan covers

  /** The regular files of a listing, as relative text below `prefix`. */
  ghost function FilesOf(prefix: string, l: Listing): set<string>
    decreases l
  {
    match l
    case End => {}
    case Entry(name, node, rest) => FilesAt(Below(prefix, name), node) + FilesOf(prefix, rest)
  }

  ghost function FilesAt(relative: string, node: Node): set<string>
    decreases node
  {
    match node
    case Directory(sub) => if Skipped(relative) then {} else FilesOf(relative, sub)
    case Regular(_) => {relative}
    case Special => {}
  }

  /** How many entries a complete scan looks at. */
  ghost function CountOf(prefix: string, l: Listing): nat
    decreases l
  {
    match l
    case End => 0
    case Entry(name, node, rest) => 1 + CountAt(Below(prefix, name), node) + CountOf(prefix, rest)
  }

  ghost function CountAt(relative: string, node: Node): nat
    decreases node
  {
    if node.Directory? && !Skipped(relative) then CountOf(relative, node.listing) else 0
  }

  /** No special file and no regular file with a second link. */
  ghost predicate PlainTree(prefix: string, l: Listing)
    decreases l
  {
    match l
    case End => true
    case Entry(name, node, rest) => PlainNode(Below(prefix, name), node) && PlainTree(prefix, rest)
  }

  ghost predicate PlainNode(relative: string, node: Node)
    decreases node
  {
    match node
    case Directory(sub) => Skipped(relative) || PlainTree(relative, sub)
    case Regular(links) => links == 1
    case Special => false
  }

  // ------------------------------------------------------- the descriptor table

  /** Descriptors are numbered by the call that opened them; `fails` decides which calls raise. */
  class Descriptors {
    const fails: nat -> bool
    var calls: nat
    var next: nat
    var closed: multiset<nat>

    constructor (fails: nat -> bool)
      ensures this.fails == fails && calls == 0 && next == 0 && closed == multiset{}
    {
      this.fails, calls, next, closed := fails, 0, 0, multiset{};
    }

    method Call() returns (ok: bool)
      modifies `calls
      ensures calls == old(calls) + 1 && ok == !fails(old(calls))
    {
      ok := !fails(calls);
      calls := calls + 1;
    }

    method Open() returns (fd: nat)
      modifies `next
      ensures fd == old(next) && next == fd + 1
    {
      fd := next;
      next := next + 1;
    }

    method Close(fd: nat)
      modifies `closed
      ensures closed == old(closed) + multiset{fd}
    {
      closed := closed + multiset{fd};
    }
  }

  /** Of the descriptors opened since `base`, each is open or was closed exactly once. */
  ghost predicate Balanced(before: multiset<nat>, closed: multiset<nat>, live: multiset<nat>, base: nat, next: nat) {
    base <= next && forall fd :: closed[fd] + live[fd] == before[fd] + if base <= fd < next then 1 else 0
  }

  /** No call from `a` up to `b` fails. */
  ghost predicate Smooth(fails: nat -> bool, a: nat, b: nat) {
    forall k | a <= k < b :: !fails(k)
  }

  // ------------------------------------------------------------- the calls of a scan

  /** How many calls the entries of a listing take: two each, and for a directory two to open and one to list it. */
  ghost function CallsOf(prefix: string, l: Listing): nat
    decreases l
  {
    match l
    case End => 0
    case Entry(name, node, rest) => 2 + CallsAt(Below(prefix, name), node) + CallsOf(prefix, rest)
  }

  ghost function CallsAt(relative: string, node: Node): nat
    decreases node
  {
    if node.Directory? && !Skipped(relative) then 3 + CallsOf(relative, node.listing) else 0
  }

  /** All calls of a complete inventory: four to open the workspace, one to list it, and its entries'. */
  ghost function TotalCalls(root: Listing): nat {
    5 + CallsOf("", root)
  }

  // ------------------------------------------------------------------ the worklist

  datatype Item = Item(fd: nat, prefix: string, listing: Listing)

  function Fds(pending: seq<Item>): seq<nat> {
    seq(|pending|, i requires 0 <= i < |pending| => pending[i].fd)
  }

  ghost function Live(pending: seq<Item>): multiset<nat> {
    multiset(Fds(pending))
  }

  ghost function PendingFiles(pending: seq<Item>): set<string> {
    if pending == [] then {}
    else
      var last := pending[|pending| - 1];
      PendingFiles(pending[..|pending| - 1]) + FilesOf(last.prefix, last.listing)
  }

  ghost function PendingCount(pending: seq<Item>): nat {
    if pending == [] then 0
    else
      var last := pending[|pending| - 1];
      PendingCount(pending[..|pending| - 1]) + CountOf(last.prefix, last.listing)
  }

  ghost predicate PendingPlain(pending: seq<Item>) {
    pending != [] ==>
      var last := pending[|pending| - 1];
      PendingPlain(pending[..|pending| - 1]) && PlainTree(last.prefix, last.listing)
  }

  ghost function PendingCalls(pending: seq<Item>): nat {
    if pending == [] then 0
    else
      var last := pending[|pending| - 1];
      PendingCalls(pending[..|pending| - 1]) + 1 + CallsOf(last.prefix, last.listing)
  }

  /** The size of the pending trees, which every iteration of the outer loop makes smaller. */
  ghost function Weight(pending: seq<Item>): nat {
    if pending == [] then 0
    else
      var last := pending[|pending| - 1];
      Weight(pending[..|pending| - 1]) + 1 + CountOf(last.prefix, last.listing)
  }

  lemma Pushed(pending: seq<Item>, item: Item)
    ensures Live(pending + [item]) == Live(pending) + multiset{item.fd}
    ensures PendingFiles(pending + [item]) == PendingFiles(pending) + FilesOf(item.prefix, item.listing)
    ensures PendingCount(pending + [item]) == PendingCount(pending) + CountOf(item.prefix, item.listing)
    ensures PendingPlain(pending + [item]) <==> PendingPlain(pending) && PlainTree(item.prefix, item.listing)
    ensures Weight(pending + [item]) == Weight(pending) + 1 + CountOf(item.prefix, item.listing)
    ensures PendingCalls(pending + [item]) == PendingCalls(pending) + 1 + CallsOf(item.prefix, item.listing)
  {
    assert (pending + [item])[..|pending|] == pending;
    assert Fds(pending + [item]) == Fds(pending) + [item.fd];
  }

  /**
   What is still owed to the result: the files found and those of the pending directories make
   up the tree, the entries visited and those still to visit add up, and no entry so far was bad.
   */
  ghost predicate Owed(root: Listing, pending: seq<Item>, prefix: string, rest: Listing, found: set<string>,
                       visited: nat)
  {
    && FilesOf("", root) == found + PendingFiles(pending) + FilesOf(prefix, rest)
    && CountOf("", root) == visited + PendingCount(pending) + CountOf(prefix, rest)
    && (PlainTree("", root) <==> PendingPlain(pending) && PlainTree(prefix, rest))
  }

  /**
   No call has failed since `c0`, and those made and those still to make add up; `ahead` are the calls
   already made for the current entry, negative while its directory is not yet listed.
   */
  ghost predicate OnTrack(fails: nat -> bool, c0: nat, calls: nat, root: Listing, pending: seq<Item>, prefix: string,
                          rest: Listing, ahead: int)
  {
    && c0 <= calls && Smooth(fails, c0, calls)
    && TotalCalls(root) == calls - c0 + PendingCalls(pending) + CallsOf(prefix, rest) - ahead
  }

  /** The next call: a failure is one of the calls of the inventory, otherwise the scan is on track. */
  lemma NextCall(fails: nat -> bool, c0: nat, calls: nat, root: Listing, pending: seq<Item>, prefix: string,
                 rest: Listing, ahead: int)
    requires OnTrack(fails, c0, calls, root, pending, prefix, rest, ahead)
    requires PendingCalls(pending) + CallsOf(prefix, rest) > ahead
    ensures if fails(calls) then !Smooth(fails, c0, c0 + TotalCalls(root))
            else OnTrack(fails, c0, calls + 1, root, pending, prefix, rest, ahead + 1)
  {
  }

  lemma EntryTakes(prefix: string, l: Listing)
    requires l.Entry?
    ensures var relative := Below(prefix, l.name);
            && CallsOf(prefix, l) == 2 + CallsAt(relative, l.node) + CallsOf(prefix, l.rest)
            && CallsAt(relative, l.node)
               == (if l.node.Directory? && !Skipped(relative) then 3 + CallsOf(relative, l.node.listing) else 0)
  {
  }

  /** An entry is done: with its own calls made, the scan is on track for the rest. */
  lemma EntryDone(fails: nat -> bool, c0: nat, calls: nat, root: Listing, pending: seq<Item>, pending': seq<Item>,
                  prefix: string, l: Listing, ahead: nat)
    requires l.Entry? && OnTrack(fails, c0, calls, root, pending, prefix, l, ahead)
    requires PendingCalls(pending') + ahead == PendingCalls(pending) + 2 + CallsAt(Below(prefix, l.name), l.node)
    ensures OnTrack(fails, c0, calls, root, pending', prefix, l.rest, 0)
  {
    EntryTakes(prefix, l);
    hide CallsOf;
    hide CallsAt;
  }

  lemma EntryCovers(prefix: string, l: Listing)
    requires l.Entry?
    ensures var relative := Below(prefix, l.name);
            && FilesOf(prefix, l) == FilesAt(relative, l.node) + FilesOf(prefix, l.rest)
            && CountOf(prefix, l) == 1 + CountAt(relative, l.node) + CountOf(prefix, l.rest)
            && (PlainTree(prefix, l) <==> PlainNode(relative, l.node) && PlainTree(prefix, l.rest))
            && (l.node.Directory? && !Skipped(relative) ==>
                  && FilesAt(relative, l.node) == FilesOf(relative, l.node.listing)
                  && CountAt(relative, l.node) == CountOf(relative, l.node.listing)
                  && (PlainNode(relative, l.node) <==> PlainTree(relative, l.node.listing)))
  {
  }

  lemma OwedAfterEntry(root: Listing, pending: seq<Item>, prefix: string, l: Listing, found: set<string>, visited: nat)
    requires l.Entry? && Owed(root, pending, prefix, l, found, visited)
    ensures var relative := Below(prefix, l.name);
            match l.node
            case Directory(sub) =>
              if Skipped(relative) then Owed(root, pending, prefix, l.rest, found, visited + 1)
              else forall fd :: Owed(root, pending + [Item(fd, relative, sub)], prefix, l.rest, found, visited + 1)
            case Regular(links) =>
              if links == 1 then Owed(root, pending, prefix, l.rest, found + {relative}, visited + 1)
              else !PlainTree("", root)
            case Special => !PlainTree("", root)
  {
    var relative := Below(prefix, l.name);
    EntryCovers(prefix, l);
    if l.node.Directory? && !Skipped(relative) {
      forall fd ensures Owed(root, pending + [Item(fd, relative, l.node.listing)], prefix, l.rest, found, visited + 1) {
        Pushed(pending, Item(fd, relative, l.node.listing));
      }
    }
  }

  lemma OpenedAndClosed(before: multiset<nat>, closed: multiset<nat>, live: multiset<nat>, base: nat, next: nat)
    requires Balanced(before, closed, live, base, next)
    ensures Balanced(before, closed, live + multiset{next}, base, next + 1)
    ensures Balanced(before, closed + multiset{next}, live, base, next + 1)
  {
    assert closed[next] + live[next] == before[next];
  }

  lemma ClosedOne(before: multiset<nat>, closed: multiset<nat>, live: multiset<nat>, base: nat, next: nat, fd: nat)
    requires Balanced(before, closed, live + multiset{fd}, base, next)
    ensures Balanced(before, closed + multiset{fd}, live, base, next)
  {
    forall d ensures (closed + multiset{fd})[d] + live[d] == before[d] + if base <= d < next then 1 else 0 {
      assert closed[d] + (live + multiset{fd})[d] == before[d] + if base <= d < next then 1 else 0;
    }
  }

  lemma Reorder(live: multiset<nat>, a: nat, b: nat)
    ensures live + multiset{a} + multiset{b} == live + multiset{b} + multiset{a}
  {
  }

  lemma NothingPending(root: Listing, fd: nat)
    ensures var start := [Item(fd, "", root)];
            Owed(root, start, "", End, {}, 0) && Live(start) == multiset{fd} && Live([]) == multiset{}
  {
    Pushed([], Item(fd, "", root));
    assert [] + [Item(fd, "", root)] == [Item(fd, "", root)];
  }

  lemma Popped(root: Listing, pending: seq<Item>, found: set<string>, visited: nat)
    requires pending != [] && Owed(root, pending, "", End, found, visited)
    ensures var item, others := pending[|pending| - 1], pending[..|pending| - 1];
            && Owed(root, others, item.prefix, item.listing, found, visited)
            && Live(pending) == Live(others) + multiset{item.fd}
            && Weight(pending) == Weight(others) + 1 + CountOf(item.prefix, item.listing)
  {
    var item, others := pending[|pending| - 1], pending[..|pending| - 1];
    assert others + [item] == pending;
    Pushed(others, item);
  }

  lemma NothingOwed(root: Listing, found: set<string>, visited: nat)
    requires Owed(root, [], "", End, found, visited)
    ensures found == FilesOf("", root) && visited == CountOf("", root) && PlainTree("", root)
  {
  }

  /** A child that turns out to be another directory is closed at once. */
  method OpenBoundChild(os: Descriptors, ghost live: multiset<nat>, ghost before: multiset<nat>, ghost base: nat)
    returns (r: Checked<nat>)
    requires Balanced(before, os.closed, live, base, os.next)
    modifies os`calls, os`next, os`closed
    ensures r.Ok? ==> Balanced(before, os.closed, live + multiset{r.value}, base, os.next)
    ensures r.Raised? ==> Balanced(before, os.closed, live, base, os.next)
    ensures r.Ok? <==> !os.fails(old(os.calls)) && !os.fails(old(os.calls) + 1)
    ensures r.Ok? ==> os.calls == old(os.calls) + 2
  {
    OpenedAndClosed(before, os.closed, live, base, os.next);
    hide Balanced;
    var ok := os.Call();
    if !ok { return Raised; }
    var fd := os.Open();
    ok := os.Call();
    if !ok { os.Close(fd); return Raised; }
    return Ok(fd);
  }

  /** One entry: checked, then skipped, pushed or recorded. */
  method VisitEntry(os: Descriptors, ghost root: Listing, prefix: string, l: Listing, pending: seq<Item>,
                    found: set<string>, ghost visited: nat, ghost before: multiset<nat>, ghost base: nat,
                    ghost extra: nat, ghost c0: nat)
    returns (ok: bool, pending': seq<Item>, found': set<string>)
    requires l.Entry? && Owed(root, pending, prefix, l, found, visited)
    requires OnTrack(os.fails, c0, os.calls, root, pending, prefix, l, 1)
    requires Balanced(before, os.closed, Live(pending) + multiset{extra}, base, os.next)
    modifies os`calls, os`next, os`closed
    ensures ok ==> Owed(root, pending', prefix, l.rest, found', visited + 1)
    ensures ok ==> OnTrack(os.fails, c0, os.calls, root, pending', prefix, l.rest, 0)
    ensures ok ==> Weight(pending') + CountOf(prefix, l.rest) <= Weight(pending) + CountOf(prefix, l)
    ensures !ok ==> !PlainTree("", root) || !Smooth(os.fails, c0, c0 + TotalCalls(root))
    ensures Balanced(before, os.closed, Live(pending') + multiset{extra}, base, os.next)
  {
    hide FilesOf;
    hide CountOf;
    hide CountAt;
    hide CallsOf;
    hide CallsAt;
    hide Owed;
    hide OnTrack;
    hide Smooth;
    hide Balanced;
    hide Live;
    hide PlainTree;
    hide Weight;
    hide PendingCalls;
    hide Skipped;
    EntryCovers(prefix, l);
    EntryTakes(prefix, l);
    OwedAfterEntry(root, pending, prefix, l, found, visited);
    pending', found' := pending, found;
    var relative := Below(prefix, l.name);
    ghost var c := os.calls;
    NextCall(os.fails, c0, c, root, pending, prefix, l, 1);
    ok := os.Call();
    if !ok { return; }
    if l.node.Directory? {
      if Skipped(relative) {
        EntryDone(os.fails, c0, os.calls, root, pending, pending, prefix, l, 2);
        return;
      }
      NextCall(os.fails, c0, c + 1, root, pending, prefix, l, 2);
      if !os.fails(c + 1) { NextCall(os.fails, c0, c + 2, root, pending, prefix, l, 3); }
      var child := OpenBoundChild(os, Live(pending) + multiset{extra}, before, base);
      if child.Raised? { ok := false; return; }
      Pushed(pending, Item(child.value, relative, l.node.listing));
      pending' := pending + [Item(child.value, relative, l.node.listing)];
      EntryDone(os.fails, c0, os.calls, root, pending, pending', prefix, l, 4);
      Reorder(Live(pending), child.value, extra);
    } else if !l.node.Regular? || l.node.links != 1 {
      ok := false;
    } else {
      EntryDone(os.fails, c0, os.calls, root, pending, pending, prefix, l, 2);
      found' := found + {relative};
    }
  }

  lemma ScanEnded(root: Listing, pending: seq<Item>, prefix: string, found: set<string>, visited: nat)
    requires Owed(root, pending, prefix, End, found, visited)
    ensures Owed(root, pending, "", End, found, visited)
  {
  }

  lemma OwedWithinCount(root: Listing, pending: seq<Item>, prefix: string, l: Listing, found: set<string>, visited: nat)
    requires l.Entry? && Owed(root, pending, prefix, l, found, visited)
    ensures visited < CountOf("", root)
  {
  }

  /** A scan stops early exactly for a fault, a bad entry or too many entries. */
  ghost predicate Excused(fails: nat -> bool, c0: nat, root: Listing, ceiling: nat) {
    !PlainTree("", root) || CountOf("", root) > ceiling || !Smooth(fails, c0, c0 + TotalCalls(root))
  }

  /** One entry of a scan: read, counted against the ceiling, visited. */
  method ScanEntry(os: Descriptors, ghost root: Listing, prefix: string, l: Listing, ceiling: nat, pending: seq<Item>,
                   found: set<string>, visited: nat, ghost before: multiset<nat>, ghost base: nat, ghost extra: nat,
                   ghost c0: nat)
    returns (ok: bool, pending': seq<Item>, found': set<string>, visited': nat)
    requires l.Entry? && Owed(root, pending, prefix, l, found, visited) && visited <= ceiling
    requires OnTrack(os.fails, c0, os.calls, root, pending, prefix, l, 0)
    requires Balanced(before, os.closed, Live(pending) + multiset{extra}, base, os.next)
    modifies os`calls, os`next, os`closed
    ensures ok ==> Owed(root, pending', prefix, l.rest, found', visited') && visited' <= ceiling
    ensures ok ==> OnTrack(os.fails, c0, os.calls, root, pending', prefix, l.rest, 0)
    ensures ok ==> Weight(pending') + CountOf(prefix, l.rest) <= Weight(pending) + CountOf(prefix, l)
    ensures !ok ==> visited' <= ceiling + 1 && Excused(os.fails, c0, root, ceiling)
    ensures Balanced(before, os.closed, Live(pending') + multiset{extra}, base, os.next)
  {
    hide Owed;
    hide OnTrack;
    hide Smooth;
    hide Balanced;
    hide Live;
    hide PlainTree;
    hide Weight;
    hide CountOf;
    hide CallsOf;
    pending', found', visited' := pending, found, visited;
    OwedWithinCount(root, pending, prefix, l, found, visited);
    EntryTakes(prefix, l);
    NextCall(os.fails, c0, os.calls, root, pending, prefix, l, 0);
    ok := os.Call();
    if !ok { return; }
    visited' := visited + 1;
    if visited' > ceiling { ok := false; return; }
    ok, pending', found' := VisitEntry(os, root, prefix, l, pending, found, visited, before, base, extra, c0);
  }

  /** Scans one popped directory, which is closed whatever happens. */
  method ScanDirectory(os: Descriptors, ghost root: Listing, item: Item, ceiling: nat, pending: seq<Item>,
                       found: set<string>, visited: nat, ghost before: multiset<nat>, ghost base: nat, ghost c0: nat)
    returns (ok: bool, pending': seq<Item>, found': set<string>, visited': nat)
    requires Owed(root, pending, item.prefix, item.listing, found, visited) && visited <= ceiling
    requires OnTrack(os.fails, c0, os.calls, root, pending, item.prefix, item.listing, -1)
    requires Balanced(before, os.closed, Live(pending) + multiset{item.fd}, base, os.next)
    modifies os`calls, os`next, os`closed
    ensures ok ==> Owed(root, pending', "", End, found', visited') && visited' <= ceiling
    ensures ok ==> OnTrack(os.fails, c0, os.calls, root, pending', "", End, 0)
    ensures ok ==> Weight(pending') <= Weight(pending) + CountOf(item.prefix, item.listing)
    ensures !ok ==> visited' <= ceiling + 1 && Excused(os.fails, c0, root, ceiling)
    ensures Balanced(before, os.closed, Live(pending'), base, os.next)
  {
    hide Owed;
    hide OnTrack;
    hide Smooth;
    hide Balanced;
    hide Live;
    hide PlainTree;
    hide Weight;
    hide CountOf;
    hide CallsOf;
    pending', found', visited' := pending, found, visited;
    NextCall(os.fails, c0, os.calls, root, pending, item.prefix, item.listing, -1);
    ok := os.Call();
    assert !ok ==> Excused(os.fails, c0, root, ceiling);
    hide Excused;
    var rest := item.listing;
    while ok && rest.Entry?
      invariant ok ==> Owed(root, pending', item.prefix, rest, found', visited') && visited' <= ceiling
      invariant ok ==> OnTrack(os.fails, c0, os.calls, root, pending', item.prefix, rest, 0)
      invariant ok ==> Weight(pending') + CountOf(item.prefix, rest)
                       <= Weight(pending) + CountOf(item.prefix, item.listing)
      invariant !ok ==> visited' <= ceiling + 1 && Excused(os.fails, c0, root, ceiling)
      invariant Balanced(before, os.closed, Live(pending') + multiset{item.fd}, base, os.next)
      decreases ok, rest
    {
      ok, pending', found', visited' :=
        ScanEntry(os, root, item.prefix, rest, ceiling, pending', found', visited', before, base, item.fd, c0);
      rest := rest.rest;
    }
    if ok {
      ScanEnded(root, pending', item.prefix, found', visited');
      TrackEnded(os.fails, c0, os.calls, root, pending', item.prefix);
    }
    ClosedOne(before, os.closed, Live(pending'), base, os.next, item.fd);
    os.Close(item.fd);
  }

  lemma TrackEnded(fails: nat -> bool, c0: nat, calls: nat, root: Listing, pending: seq<Item>, prefix: string)
    requires OnTrack(fails, c0, calls, root, pending, prefix, End, 0)
    ensures OnTrack(fails, c0, calls, root, pending, "", End, 0)
    ensures pending == [] ==> calls == c0 + TotalCalls(root) && Smooth(fails, c0, calls)
  {
  }

  lemma TrackPopped(fails: nat -> bool, c0: nat, calls: nat, root: Listing, pending: seq<Item>)
    requires pending != [] && OnTrack(fails, c0, calls, root, pending, "", End, 0)
    ensures var item, others := pending[|pending| - 1], pending[..|pending| - 1];
            OnTrack(fails, c0, calls, root, others, item.prefix, item.listing, -1)
  {
  }

  lemma TrackStarts(fails: nat -> bool, c0: nat, root: Listing, fd: nat)
    requires Smooth(fails, c0, c0 + 4)
    ensures OnTrack(fails, c0, c0 + 4, root, [Item(fd, "", root)], "", End, 0)
  {
    assert [Item(fd, "", root)][..0] == [];
  }

  /** The directory descriptor of the workspace itself, bound by two path lookups around the open. */
  method OpenBoundDirectory(os: Descriptors) returns (r: Checked<nat>, leaked: bool)
    modifies os`calls, os`next, os`closed
    ensures r.Ok? ==> Balanced(old(os.closed), os.closed, multiset{r.value}, old(os.next), os.next)
    ensures r.Raised? ==>
              Balanced(old(os.closed), os.closed, if leaked then multiset{old(os.next)} else multiset{},
                       old(os.next), os.next)
    ensures leaked <==> !os.fails(old(os.calls)) && !os.fails(old(os.calls) + 1) && os.fails(old(os.calls) + 2)
    ensures leaked ==> r.Raised?
    ensures r.Ok? <==> Smooth(os.fails, old(os.calls), old(os.calls) + 4)
    ensures r.Ok? ==> os.calls == old(os.calls) + 4
  {
    assert multiset{} + multiset{os.next} == multiset{os.next};
    assert Balanced(os.closed, os.closed, multiset{}, os.next, os.next);
    OpenedAndClosed(os.closed, os.closed, multiset{}, os.next, os.next);
    hide Balanced;
    var ok := os.Call();
    if !ok { return Raised, false; }
    ok := os.Call();
    if !ok { return Raised, false; }
    var fd := os.Open();
    ok := os.Call();
    if !ok { return Raised, true; }
    ok := os.Call();
    if !ok { os.Close(fd); return Raised, false; }
    return Ok(fd), false;
  }

  lemma FirstOfSuffix(fds: seq<nat>, i: nat)
    requires i < |fds|
    ensures multiset(fds[i..]) == multiset(fds[i + 1..]) + multiset{fds[i]}
  {
    assert fds[i..] == [fds[i]] + fds[i + 1..];
  }

  method CloseAll(os: Descriptors, pending: seq<Item>, ghost before: multiset<nat>, ghost base: nat)
    requires Balanced(before, os.closed, Live(pending), base, os.next)
    modifies os`closed
    ensures Balanced(before, os.closed, multiset{}, base, os.next)
  {
    var fds, i := Fds(pending), 0;
    assert fds[0..] == fds;
    hide Balanced;
    while i < |pending|
      invariant i <= |pending| == |fds| && Balanced(before, os.closed, multiset(fds[i..]), base, os.next)
    {
      FirstOfSuffix(fds, i);
      ClosedOne(before, os.closed, multiset(fds[i + 1..]), base, os.next, fds[i]);
      os.Close(fds[i]);
      i := i + 1;
    }
    assert fds[i..] == [];
  }

  /**
   The inventory terminates.  It succeeds exactly when all entries are directories or single-link
   files, there are no more than the ceiling, and none of the calls that takes fails, and then with
   exactly the regular files of the tree, after visiting every entry.  Every descriptor it ever
   opened is closed exactly once, except that the workspace's own is lost when the second path
   lookup raises before anything was pushed.
   */
  method WorkspaceFileInventory(os: Descriptors, root: Listing, ceiling: nat)
    returns (r: Checked<set<string>>, visited: nat, leaked: bool)
    modifies os`calls, os`next, os`closed
    ensures r.Ok? ==> r.value == FilesOf("", root) && visited == CountOf("", root)
    ensures r.Ok? ==> os.calls == old(os.calls) + TotalCalls(root)
    ensures r.Ok? <==> && PlainTree("", root) && CountOf("", root) <= ceiling
                       && Smooth(os.fails, old(os.calls), old(os.calls) + TotalCalls(root))
    ensures visited <= ceiling + 1
    ensures Balanced(old(os.closed), os.closed, if leaked then multiset{old(os.next)} else multiset{},
                     old(os.next), os.next)
    ensures leaked <==> !os.fails(old(os.calls)) && !os.fails(old(os.calls) + 1) && os.fails(old(os.calls) + 2)
  {
    hide Balanced;
    hide Live;
    hide PlainTree;
    hide FilesOf;
    hide CountOf;
    hide CallsOf;
    hide Owed;
    hide OnTrack;
    hide Smooth;
    hide Weight;
    visited := 0;
    ghost var c0 := os.calls;
    var opening;
    opening, leaked := OpenBoundDirectory(os);
    SmoothPrefix(os.fails, c0, root);
    if opening.Raised? { r := Raised; return; }
    ghost var before, base := old(os.closed), old(os.next);
    var pending, found, ok := [Item(opening.value, "", root)], {}, true;
    NothingPending(root, opening.value);
    TrackStarts(os.fails, c0, root, opening.value);
    while ok && pending != []
      invariant ok ==> Owed(root, pending, "", End, found, visited) && visited <= ceiling
      invariant ok ==> OnTrack(os.fails, c0, os.calls, root, pending, "", End, 0)
      invariant !ok ==> visited <= ceiling + 1 && Excused(os.fails, c0, root, ceiling)
      invariant Balanced(before, os.closed, Live(pending), base, os.next)
      decreases ok, Weight(pending)
    {
      var item, others := pending[|pending| - 1], pending[..|pending| - 1];
      Popped(root, pending, found, visited);
      TrackPopped(os.fails, c0, os.calls, root, pending);
      ok, pending, found, visited := ScanDirectory(os, root, item, ceiling, others, found, visited, before, base, c0);
    }
    if ok {
      NothingOwed(root, found, visited);
      TrackEnded(os.fails, c0, os.calls, root, pending, "");
    }
    CloseAll(os, pending, before, base);
    r := if ok then Ok(found) else Raised;
  }

  lemma SmoothPrefix(fails: nat -> bool, c0: nat, root: Listing)
    ensures Smooth(fails, c0, c0 + TotalCalls(root)) ==> Smooth(fails, c0, c0 + 4)
  {
  }

  // --------------------------------------------- the files, independently of a scan

  /** Following `parts` from the listing leads to a regular file. */
  ghost predicate RegularAt(l: Listing, parts: seq<string>)
    decreases l
  {
    && parts != [] && l.Entry?
    && (|| (l.name == parts[0] && if |parts| == 1 then l.node.Regular? else RegularBelow(l.node, parts[1..]))
        || RegularAt(l.rest, parts))
  }

  ghost predicate RegularBelow(node: Node, parts: seq<string>)
    decreases node
  {
    node.Directory? && RegularAt(node.listing, parts)
  }

  /** Directory entries are never empty and hold no slash. */
  ghost predicate WellNamed(l: Listing)
    decreases l
  {
    l.Entry? ==> Plain(l.name) && WellNamed(l.rest) && WellNamedNode(l.node)
  }

  ghost predicate WellNamedNode(node: Node)
    decreases node
  {
    node.Directory? ==> WellNamed(node.listing)
  }

  /** Below a top-level `.git`, which is therefore a directory. */
  ghost predicate InsideMetadata(parts: seq<string>) {
    |parts| > 1 && parts[0] == ".git"
  }

  ghost predicate AllPlain(parts: seq<string>) {
    forall k | 0 <= k < |parts| :: Plain(parts[k])
  }

  lemma BelowIsJoin(pre: seq<string>, name: string)
    requires AllPlain(pre) && Plain(name)
    ensures Below(Join(pre), name) == Join(pre + [name])
    ensures Skipped(Join(pre + [name])) <==> pre == [] && name == ".git"
  {
    if pre == [] {
      assert pre + [name] == [name];
    } else {
      CleanJoinStartsPlain(pre);
      JoinLast(pre, name);
      assert Join(pre + [name])[|Join(pre)|] == '/';
      assert '/' !in ".git";
    }
  }

  lemma {:induction false} FileIsListed(pre: seq<string>, l: Listing, parts: seq<string>)
    requires AllPlain(pre) && WellNamed(l) && RegularAt(l, parts) && (pre == [] ==> !InsideMetadata(parts))
    ensures Join(pre + parts) in FilesOf(Join(pre), l)
    decreases l
  {
    EntryCovers(Join(pre), l);
    BelowIsJoin(pre, l.name);
    if RegularAt(l.rest, parts) {
      FileIsListed(pre, l.rest, parts);
    } else if |parts| == 1 {
      assert parts == [l.name];
    } else {
      assert RegularBelow(l.node, parts[1..]) && WellNamedNode(l.node);
      FileIsListed(pre + [l.name], l.node.listing, parts[1..]);
      assert pre + [l.name] + parts[1..] == pre + parts;
    }
  }

  lemma AppendPlain(pre: seq<string>, name: string)
    requires AllPlain(pre) && Plain(name)
    ensures AllPlain(pre + [name])
  {
  }

  /** A file below the first entry, or the first entry itself. */
  lemma {:induction false} ListedIsFile(pre: seq<string>, l: Listing, text: string) returns (parts: seq<string>)
    requires AllPlain(pre) && WellNamed(l) && text in FilesOf(Join(pre), l)
    ensures RegularAt(l, parts) && Join(pre + parts) == text && (pre == [] ==> !InsideMetadata(parts))
    decreases l
  {
    hide Join;
    hide CountOf;
    hide PlainTree;
    hide Below;
    hide Skipped;
    EntryCovers(Join(pre), l);
    assert Plain(l.name) && WellNamed(l.rest) && WellNamedNode(l.node);
    BelowIsJoin(pre, l.name);
    AppendPlain(pre, l.name);
    hide AllPlain;
    hide Plain;
    hide FilesOf;
    if text in FilesOf(Join(pre), l.rest) {
      parts := ListedIsFile(pre, l.rest, text);
    } else if l.node.Directory? {
      assert text in FilesAt(Below(Join(pre), l.name), l.node);
      var rest := ListedIsFile(pre + [l.name], l.node.listing, text);
      parts := [l.name] + rest;
      assert parts[1..] == rest && pre + [l.name] + rest == pre + parts;
      assert RegularBelow(l.node, parts[1..]);
    } else {
      parts := [l.name];
    }
  }

  ghost predicate Names(root: Listing, text: string, parts: seq<string>) {
    RegularAt(root, parts) && text == Join(parts) && !InsideMetadata(parts)
  }

  /** The inventory's result is exactly the paths of the regular files outside the top-level `.git` directory. */
  lemma InventoryIsTheTree(root: Listing, text: string)
    requires WellNamed(root)
    ensures text in FilesOf("", root) <==> exists parts :: Names(root, text, parts)
  {
    if text in FilesOf("", root) {
      var parts := ListedIsFile([], root, text);
      assert [] + parts == parts;
      assert Names(root, text, parts);
    }
    if parts :| Names(root, text, parts) {
      FileIsListed([], root, parts);
      assert [] + parts == parts;
    }
  }
}
