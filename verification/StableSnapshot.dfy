/**
 The optimistic file read: `lstat`, `open`, `fstat`, chunked reads, `fstat`, `lstat`, with
 any amount of writing by others between two calls.  The one assumption about the writers is
 that every change to a file, or to what the path names, stamps the inode with a change time
 later than anything seen before.
 */
module StableSnapshot {
  import opened Options

  type Ino = nat
  type Bytes = seq<nat>

  const CHUNK: nat := 64 * 1024

  datatype Inode = Inode(regular: bool, mode: nat, links: nat, modified: nat, changed: nat, content: Bytes)

  /** The file system at one instant: what the watched path names, and the live inodes. */
  datatype World = World(clock: nat, path: Option<Ino>, inodes: map<Ino, Inode>)

  datatype StatIdentity = StatIdentity(ino: Ino, regular: bool, mode: nat, links: nat, size: nat, modified: nat,
                                       changed: nat)

  datatype Snapshot = Snapshot(identity: StatIdentity, raw: Bytes)

  function Stat(w: World, i: Ino): Checked<StatIdentity> {
    if i in w.inodes then
      var f := w.inodes[i];
      Ok(StatIdentity(i, f.regular, f.mode, f.links, |f.content|, f.modified, f.changed))
    else Raised
  }

  function LStat(w: World): Checked<StatIdentity> {
    if w.path.Some? then Stat(w, w.path.value) else Raised
  }

  ghost predicate Untouched(w: World, w': World, i: Ino) {
    i in w.inodes && i in w'.inodes && w'.inodes[i] == w.inodes[i]
  }

  /** One step of the writers. */
  ghost predicate Evolves(w: World, w': World) {
    && w.clock <= w'.clock
    && (forall i | i in w'.inodes :: w'.inodes[i].changed <= w'.clock)
    && (forall i | i in w'.inodes :: Untouched(w, w', i) || w.clock < w'.inodes[i].changed)
    && (w.path.Some? && w'.path != w.path ==> !Untouched(w, w', w.path.value))
  }

  ghost predicate History(world: nat -> World) {
    && (forall i | i in world(0).inodes :: world(0).inodes[i].changed <= world(0).clock)
    && (forall t: nat :: Evolves(world(t), world(t + 1)))
  }

  ghost predicate SameThroughout(world: nat -> World, i: Ino, from: nat, to: nat) {
    i in world(from).inodes
    && forall t: nat | from <= t <= to :: i in world(t).inodes && world(t).inodes[i] == world(from).inodes[i]
  }

  lemma StampsAreInThePast(world: nat -> World, t: nat, i: Ino)
    requires History(world) && i in world(t).inodes
    ensures world(t).inodes[i].changed <= world(t).clock
  {
    if t > 0 { assert Evolves(world(t - 1), world(t - 1 + 1)); }
  }

  /** Either nothing happened to the inode, or its change time is later than the starting clock. */
  lemma {:induction false} UnchangedOrStamped(world: nat -> World, i: Ino, from: nat, to: nat)
    requires History(world) && from <= to && i in world(from).inodes
    ensures world(from).clock <= world(to).clock
    ensures i in world(to).inodes ==>
              SameThroughout(world, i, from, to) || world(from).clock < world(to).inodes[i].changed
  {
    if from < to {
      UnchangedOrStamped(world, i, from, to - 1);
      assert Evolves(world(to - 1), world(to - 1 + 1));
    }
  }

  /** Equal stat identities at two instants mean that nothing happened in between. */
  lemma EqualIdentityMeansUnchanged(world: nat -> World, i: Ino, from: nat, to: nat)
    requires History(world) && from <= to
    requires Stat(world(from), i).Ok? && Stat(world(to), i) == Stat(world(from), i)
    ensures SameThroughout(world, i, from, to)
  {
    StampsAreInThePast(world, from, i);
    UnchangedOrStamped(world, i, from, to);
  }

  lemma {:induction false} PathStays(world: nat -> World, i: Ino, from: nat, to: nat)
    requires History(world) && from <= to && SameThroughout(world, i, from, to) && world(from).path == Some(i)
    ensures world(to).path == Some(i)
  {
    if from < to {
      PathStays(world, i, from, to - 1);
      assert Evolves(world(to - 1), world(to - 1 + 1));
    }
  }

  /** One inode, bound to the path and carrying `raw`, from the first instant to the last. */
  ghost predicate OneVersion(world: nat -> World, i: Ino, raw: Bytes, from: nat, to: nat) {
    forall t: nat | from <= t <= to ::
      world(t).path == Some(i) && i in world(t).inodes && world(t).inodes[i].content == raw
  }

  /** `os.read` at `offset`: empty at end of file, otherwise at least one and at most `count` bytes. */
  function Read(f: Inode, offset: nat, count: nat, short: nat): (chunk: Bytes)
    requires 0 < count <= CHUNK
    ensures |chunk| <= count
    ensures offset < |f.content| ==> |chunk| > 0 && offset + |chunk| <= |f.content|
                                     && chunk == f.content[offset..offset + |chunk|]
    ensures offset >= |f.content| ==> chunk == []
  {
    if offset >= |f.content| then []
    else
      var available := if count < |f.content| - offset then count else |f.content| - offset;
      var n := 1 + short % available;
      f.content[offset..offset + n]
  }

  /** The writer steps that pass after the first `n` calls of the reader. */
  ghost function Waited(delay: nat -> nat, n: nat): nat {
    if n == 0 then 0 else Waited(delay, n - 1) + delay(n - 1)
  }

  lemma NothingWaited(delay: nat -> nat)
    ensures Waited(delay, 0) == 0
  {
  }

  lemma WaitedStep(delay: nat -> nat, n: nat)
    ensures Waited(delay, n + 1) == Waited(delay, n) + delay(n)
  {
  }

  /** Reads in chunks until nothing more comes or one byte over the maximum has been read. */
  method ReadChunks(world: nat -> World, i: Ino, maxBytes: nat, delay: nat -> nat, short: nat -> nat, from: nat,
                    first: nat, ghost begin: nat)
    returns (ok: bool, raw: Bytes, to: nat, k: nat)
    requires from == begin + Waited(delay, first)
    ensures from <= to == begin + Waited(delay, k) && first <= k && |raw| <= maxBytes + 1
    ensures ok ==> k > first
    ensures ok && |raw| <= maxBytes && SameThroughout(world, i, from, to) ==> raw == world(from).inodes[i].content
    ensures SameThroughout(world, i, from, to) ==> ok && raw <= world(from).inodes[i].content
  {
    to, k, raw := from, first, [];
    var remaining, more := maxBytes + 1, true;
    while remaining > 0 && more
      invariant from <= to == begin + Waited(delay, k) && first <= k && (remaining <= maxBytes || !more ==> k > first)
      invariant remaining >= 0 && |raw| + remaining == maxBytes + 1
      invariant SameThroughout(world, i, from, to) ==> raw <= world(from).inodes[i].content
      invariant SameThroughout(world, i, from, to) && !more ==> raw == world(from).inodes[i].content
      decreases more, remaining
    {
      to, k := to + delay(k), k + 1;
      if i !in world(to).inodes { return false, raw, to, k; }
      var chunk := Read(world(to).inodes[i], |raw|, if remaining < CHUNK then remaining else CHUNK, short(k));
      if SameThroughout(world, i, from, to) {
        assert world(to).inodes[i].content == world(from).inodes[i].content;
      }
      more := chunk != [];
      raw, remaining := raw + chunk, remaining - |chunk|;
    }
    ok := true;
  }

  /** The same file under the path at both ends was there, unchanged, all the time. */
  lemma ThereThroughout(world: nat -> World, i: Ino, from: nat, to: nat)
    requires History(world) && from <= to && world(from).path == Some(i)
    requires Stat(world(from), i).Ok? && Stat(world(to), i) == Stat(world(from), i)
    ensures forall u: nat | from <= u <= to ::
              world(u).path == Some(i) && i in world(u).inodes && world(u).inodes[i] == world(from).inodes[i]
    ensures forall u, v: nat | from <= u <= v <= to :: SameThroughout(world, i, u, v)
  {
    EqualIdentityMeansUnchanged(world, i, from, to);
    forall u: nat | from <= u <= to ensures world(u).path == Some(i) { PathStays(world, i, from, u); }
  }

  /** In a world that stands still every look sees the same. */
  lemma StandsStill(world: nat -> World, i: Ino, from: nat, to: nat)
    requires from <= to && (forall t: nat | from <= t :: world(t) == world(from))
    ensures i in world(from).inodes ==> forall u, v: nat | from <= u <= v <= to :: SameThroughout(world, i, u, v)
  {
  }

  /**
   `delay(k)` writer steps pass after the reader's k-th call, and `short(k)` shortens the
   k-th read.  An accepted snapshot is the complete content of one version that was there,
   under the path, at every instant from the first call to the last; and a file nobody
   touches is always accepted.  `calls` counts the calls after the first: two looks and the open
   around at least one read.
   */
  method SnapshotRegularFile(world: nat -> World, maxBytes: nat, begin: nat, delay: nat -> nat, short: nat -> nat)
    returns (r: Checked<Snapshot>, ghost end: nat, ghost calls: nat)
    requires History(world)
    ensures begin <= end == begin + Waited(delay, calls)
    ensures r.Ok? ==> calls >= 5
    ensures r.Ok? ==> OneVersion(world, r.value.identity.ino, r.value.raw, begin, end)
    ensures r.Ok? ==> LStat(world(begin)) == Ok(r.value.identity) && |r.value.raw| <= maxBytes
                      && r.value.identity.regular && r.value.identity.links == 1
    ensures (forall t: nat | begin <= t :: world(t) == world(begin)) ==>
              (r.Ok? <==> LStat(world(begin)).Ok? && LStat(world(begin)).value.regular
                          && LStat(world(begin)).value.links == 1 && LStat(world(begin)).value.size <= maxBytes)
  {
    hide Waited;
    hide History;
    hide SameThroughout;
    NothingWaited(delay);
    var t, k := begin, 0;
    end, calls := begin, 0;
    var before := LStat(world(t));
    if before.Raised? || !before.value.regular || before.value.links != 1 || before.value.size > maxBytes {
      return Raised, t, k;
    }
    WaitedStep(delay, k);
    t, k := t + delay(k), k + 1;
    if world(t).path.None? { return Raised, t, k; }
    var i := world(t).path.value;
    WaitedStep(delay, k);
    t, k := t + delay(k), k + 1;
    var atOpen := Stat(world(t), i);
    if atOpen != before { return Raised, t, k; }
    ghost var settled := t;
    var ok, raw;
    ok, raw, t, k := ReadChunks(world, i, maxBytes, delay, short, t, k, begin);
    if forall u: nat | begin <= u :: world(u) == world(begin) { StandsStill(world, i, begin, t); }
    if !ok { return Raised, t, k; }
    WaitedStep(delay, k);
    t, k := t + delay(k), k + 1;
    var after := Stat(world(t), i);
    if |raw| > maxBytes || after != atOpen { return Raised, t, k; }
    WaitedStep(delay, k);
    t, k := t + delay(k), k + 1;
    var last := LStat(world(t));
    if last != before { return Raised, t, k; }
    ThereThroughout(world, i, begin, t);
    return Ok(Snapshot(before.value, raw)), t, k;
  }
}
