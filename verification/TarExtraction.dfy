/**
 Tar extraction: regular members are written as they come, symbolic links are only recorded, and
 after the last member every link is replaced by a generated wrapper file.
 */
module TarExtraction {
  import opened Options
  import opened PathText
  import opened TarWrappers

  datatype Kind = RegularMember | DirectoryMember | SymbolicLink | OtherMember

  /** One archive member; `special` is any setuid, setgid or sticky bit. */
  datatype Member = Member(name: string, kind: Kind, size: nat, linkName: string, special: bool)

  datatype Node = Dir | File(bytes: nat) | Wrapper(target: string, bytes: nat)

  /** The stage directory, relative to itself. */
  type Stage = map<Parts, Node>

  /** The declared wrappers: archive path to reviewed target. */
  type Declared = map<string, string>

  // --------------------------------------------------------------- stage and sizes

  function Size(n: Node): nat {
    match n
    case Dir => 0
    case File(b) => b
    case Wrapper(_, b) => b
  }

  ghost function Total(stage: Stage): nat {
    if stage == map[] then 0
    else
      var p :| p in stage;
      Size(stage[p]) + Total(stage - {p})
  }

  lemma {:induction false} TotalRemove(stage: Stage, p: Parts)
    requires p in stage
    ensures Total(stage) == Size(stage[p]) + Total(stage - {p})
    decreases |stage|
  {
    var q :| q in stage && Total(stage) == Size(stage[q]) + Total(stage - {q});
    if q != p {
      TotalRemove(stage - {q}, p);
      TotalRemove(stage - {p}, q);
      assert stage - {q} - {p} == stage - {p} - {q};
    }
  }

  lemma TotalInsert(stage: Stage, p: Parts, n: Node)
    requires p !in stage
    ensures Total(stage[p := n]) == Total(stage) + Size(n)
  {
    TotalRemove(stage[p := n], p);
    assert stage[p := n] - {p} == stage;
  }

  /** `mkdir(parents=True, exist_ok=True)` on the directory `parts`. */
  function MakeDirs(stage: Stage, parts: Parts): Checked<Stage> {
    if parts == [] then Ok(stage)
    else
      match MakeDirs(stage, parts[..|parts| - 1])
      case Raised => Raised
      case Ok(s) =>
        if parts !in s then Ok(s[parts := Dir])
        else if s[parts].Dir? then Ok(s) else Raised
  }

  /** A non-empty prefix: a directory on the way to `parts`, or `parts` itself. */
  predicate OnTheWay(p: Parts, parts: Parts) {
    p != [] && p <= parts
  }

  lemma WayStep(p: Parts, parts: Parts)
    requires parts != []
    ensures OnTheWay(p, parts) <==> p == parts || OnTheWay(p, parts[..|parts| - 1])
  {
    var front := parts[..|parts| - 1];
    if p <= front { assert forall k | 0 <= k < |p| :: p[k] == parts[k]; }
    if p <= parts && p != parts { assert p == front[..|p|]; }
  }

  /** Nothing but directories on the way. */
  ghost predicate DirsFree(stage: Stage, parts: Parts) {
    forall p | OnTheWay(p, parts) && p in stage :: stage[p].Dir?
  }

  /** What making directories leaves: everything as it was, and the way to `parts`. */
  ghost predicate DirsMade(stage: Stage, parts: Parts, s: Stage) {
    && Total(s) == Total(stage)
    && (forall p :: p in s <==> p in stage || OnTheWay(p, parts))
    && (forall p | p in stage :: s[p] == stage[p])
    && (forall p | p in s && p !in stage :: s[p] == Dir)
  }

  lemma {:induction false} MakeDirsExactly(stage: Stage, parts: Parts)
    ensures MakeDirs(stage, parts).Ok? <==> DirsFree(stage, parts)
    ensures MakeDirs(stage, parts).Ok? ==> DirsMade(stage, parts, MakeDirs(stage, parts).value)
  {
    if parts != [] {
      var front := parts[..|parts| - 1];
      MakeDirsExactly(stage, front);
      forall p ensures OnTheWay(p, parts) <==> p == parts || OnTheWay(p, front) { WayStep(p, parts); }
      assert !OnTheWay(parts, front);
      if MakeDirs(stage, front).Ok? {
        var s := MakeDirs(stage, front).value;
        if parts !in s { TotalInsert(s, parts, Dir); }
        assert parts in s <==> parts in stage;
      }
    }
  }

  /** Creates the parents and then the file, which must not exist. */
  function PutFile(stage: Stage, parts: Parts, n: Node): Checked<Stage>
    requires parts != []
  {
    match MakeDirs(stage, parts[..|parts| - 1])
    case Raised => Raised
    case Ok(s) => if parts in s then Raised else Ok(s[parts := n])
  }

  ghost predicate FilePut(stage: Stage, parts: Parts, n: Node, s: Stage) {
    && Total(s) == Total(stage) + Size(n)
    && (forall p :: p in s <==> p in stage || OnTheWay(p, parts))
    && (forall p | p in stage :: s[p] == stage[p])
    && parts in s && s[parts] == n
    && (forall p | p in s && p !in stage && p != parts :: s[p] == Dir)
  }

  lemma PutFileExactly(stage: Stage, parts: Parts, n: Node)
    requires parts != []
    ensures PutFile(stage, parts, n).Ok? <==> parts !in stage && DirsFree(stage, parts[..|parts| - 1])
    ensures PutFile(stage, parts, n).Ok? ==> FilePut(stage, parts, n, PutFile(stage, parts, n).value)
  {
    var front := parts[..|parts| - 1];
    MakeDirsExactly(stage, front);
    hide DirsFree;
    hide MakeDirs;
    forall p ensures OnTheWay(p, parts) <==> p == parts || OnTheWay(p, front) { WayStep(p, parts); }
    assert !OnTheWay(parts, front);
    hide OnTheWay;
    if MakeDirs(stage, front).Ok? {
      var s := MakeDirs(stage, front).value;
      if parts !in s { TotalInsert(s, parts, n); }
    }
  }

  // ------------------------------------------------------- what an archive contains

  predicate IsLink(m: Member) { m.kind.SymbolicLink? }
  predicate IsFile(m: Member) { m.kind.RegularMember? }

  /** The path a member's name spells, if it is safe. */
  function PartsOf(m: Member): Parts {
    match SafeMemberName(m.name)
    case Ok(parts) => parts
    case Raised => []
  }

  function RegularBytes(members: seq<Member>): nat {
    if members == [] then 0
    else RegularBytes(members[..|members| - 1])
         + var m := members[|members| - 1]; if IsFile(m) then m.size else 0
  }

  /** The paths of the links, in archive order. */
  function LinkOrder(members: seq<Member>): seq<Parts> {
    if members == [] then []
    else
      var m := members[|members| - 1];
      LinkOrder(members[..|members| - 1]) + if IsLink(m) then [PartsOf(m)] else []
  }

  /** A safe name under a listed top-level entry, and a kind that can be extracted. */
  predicate MemberOk(m: Member, declared: Declared, allowed: set<string>) {
    && SafeMemberName(m.name).Ok? && PartsOf(m) != [] && PartsOf(m)[0] in allowed
    && if IsLink(m) then m.name in declared && m.linkName == declared[m.name] && Resolve(PartsOf(m), m.linkName).Ok?
       else (IsFile(m) || m.kind.DirectoryMember?) && !m.special
  }

  /** Two extracted members that cannot both be there: a file on the way to the other path. */
  predicate Clash(a: Member, b: Member) {
    && !IsLink(a) && !IsLink(b)
    && ((IsFile(a) && PartsOf(a) <= PartsOf(b)) || (IsFile(b) && PartsOf(b) <= PartsOf(a)))
  }

  ghost predicate PairOk(a: Member, b: Member) {
    PartsOf(a) != PartsOf(b) && !Clash(a, b)
  }

  /** `m` can follow the members before it. */
  ghost predicate Admitted(before: seq<Member>, m: Member, declared: Declared, allowed: set<string>) {
    MemberOk(m, declared, allowed) && forall k | 0 <= k < |before| :: PairOk(before[k], m)
  }

  /** Every member of the archive can follow those before it. */
  ghost predicate FirstPass(members: seq<Member>, declared: Declared, allowed: set<string>) {
    forall i | 0 <= i < |members| :: Admitted(members[..i], members[i], declared, allowed)
  }

  ghost predicate Occupies(m: Member, p: Parts) {
    !IsLink(m) && OnTheWay(p, PartsOf(m))
  }

  ghost predicate Occupied(members: seq<Member>, p: Parts) {
    exists k :: 0 <= k < |members| && Occupies(members[k], p)
  }

  ghost predicate FilePath(members: seq<Member>, p: Parts) {
    exists k :: 0 <= k < |members| && IsFile(members[k]) && PartsOf(members[k]) == p
  }

  ghost predicate FileIn(stage: Stage, m: Member) {
    IsFile(m) ==> PartsOf(m) in stage && stage[PartsOf(m)] == File(m.size)
  }

  /** The stage holds exactly the paths of the extracted members, files where they are files. */
  ghost predicate StageOf(stage: Stage, members: seq<Member>) {
    && Total(stage) == RegularBytes(members)
    && (forall p :: p in stage <==> Occupied(members, p))
    && (forall p | p in stage :: !stage[p].Wrapper? && (stage[p].File? <==> FilePath(members, p)))
    && FilesIn(stage, members)
  }

  lemma OccupiedAppend(before: seq<Member>, m: Member, p: Parts)
    ensures Occupied(before + [m], p) <==> Occupied(before, p) || Occupies(m, p)
    ensures FilePath(before + [m], p) <==> FilePath(before, p) || (IsFile(m) && PartsOf(m) == p)
  {
    hide PartsOf;
    var all := before + [m];
    assert all[|before|] == m && forall k | 0 <= k < |before| :: all[k] == before[k];
    if Occupied(before, p) {
      var k :| 0 <= k < |before| && Occupies(before[k], p);
      assert Occupies(all[k], p);
    }
    if FilePath(before, p) {
      var k :| 0 <= k < |before| && IsFile(before[k]) && PartsOf(before[k]) == p;
      assert IsFile(all[k]) && PartsOf(all[k]) == p;
    }
  }

  /** The pairwise conditions say exactly that nothing in the way of the new member is there. */
  lemma RoomForFile(stage: Stage, before: seq<Member>, m: Member)
    requires StageOf(stage, before) && IsFile(m) && PartsOf(m) != []
    ensures (PartsOf(m) !in stage && DirsFree(stage, PartsOf(m)[..|PartsOf(m)| - 1]))
            <==> forall k | 0 <= k < |before| :: !Clash(before[k], m)
  {
    hide PartsOf;
    var parts := PartsOf(m);
    var front := parts[..|parts| - 1];
    forall p ensures OnTheWay(p, parts) <==> p == parts || OnTheWay(p, front) { WayStep(p, parts); }
    if parts !in stage && DirsFree(stage, front) {
      forall k | 0 <= k < |before| ensures !Clash(before[k], m) {
        assert Occupies(before[k], parts) ==> Occupied(before, parts);
        if IsFile(before[k]) && PartsOf(before[k]) <= parts {
          FileOnTheWay(stage, before, k, parts);
        }
      }
    }
    if forall k | 0 <= k < |before| :: !Clash(before[k], m) {
      forall k | 0 <= k < |before|
        ensures !Occupies(before[k], parts) && (IsFile(before[k]) ==> !OnTheWay(PartsOf(before[k]), front))
      {
        assert !Clash(before[k], m);
        assert OnTheWay(PartsOf(before[k]), front) ==> OnTheWay(PartsOf(before[k]), parts);
      }
      assert !Occupied(before, parts);
      forall p | OnTheWay(p, front) ensures !FilePath(before, p) { }
    }
  }

  lemma FileOnTheWay(stage: Stage, before: seq<Member>, k: nat, parts: Parts)
    requires StageOf(stage, before) && k < |before| && IsFile(before[k]) && PartsOf(before[k]) <= parts
    ensures PartsOf(before[k]) in stage && stage[PartsOf(before[k])].File? && OnTheWay(PartsOf(before[k]), parts)
  {
    hide PartsOf;
    assert FileIn(stage, before[k]);
    var j :| 0 <= j < |before| && Occupies(before[j], PartsOf(before[k]));
  }

  lemma RoomForDirectory(stage: Stage, before: seq<Member>, m: Member)
    requires StageOf(stage, before) && m.kind.DirectoryMember? && PartsOf(m) != []
    ensures DirsFree(stage, PartsOf(m)) <==> forall k | 0 <= k < |before| :: !Clash(before[k], m)
  {
    hide PartsOf;
    var parts := PartsOf(m);
    if DirsFree(stage, parts) {
      forall k | 0 <= k < |before| ensures !Clash(before[k], m) {
        if IsFile(before[k]) && PartsOf(before[k]) <= parts { FileOnTheWay(stage, before, k, parts); }
      }
    }
    if forall k | 0 <= k < |before| :: !Clash(before[k], m) {
      forall k | 0 <= k < |before| && IsFile(before[k])
        ensures !(PartsOf(before[k]) <= parts) { assert !Clash(before[k], m); }
      forall p | OnTheWay(p, parts) ensures !FilePath(before, p) { }
    }
  }

  ghost predicate FilesIn(stage: Stage, members: seq<Member>) {
    forall k | 0 <= k < |members| :: FileIn(stage, members[k])
  }

  lemma FilesStayIn(stage: Stage, s: Stage, before: seq<Member>, m: Member)
    requires FilesIn(stage, before) && (forall p | p in stage :: p in s && s[p] == stage[p]) && FileIn(s, m)
    ensures FilesIn(s, before + [m])
  {
    hide PartsOf;
    forall k | 0 <= k < |before + [m]| ensures FileIn(s, (before + [m])[k]) {
      if k < |before| { assert FileIn(stage, before[k]); }
    }
  }

  lemma RegularBytesGrow(before: seq<Member>, m: Member)
    ensures RegularBytes(before + [m]) == RegularBytes(before) + if IsFile(m) then m.size else 0
  {
    assert (before + [m])[..|before|] == before;
  }

  /** A new file or directory: the stage becomes that of one more member. */
  lemma FileExtracted(stage: Stage, s: Stage, before: seq<Member>, m: Member)
    requires StageOf(stage, before) && IsFile(m) && PartsOf(m) != [] && PartsOf(m) !in stage
    requires FilePut(stage, PartsOf(m), File(m.size), s)
    requires forall k | 0 <= k < |before| && IsFile(before[k]) :: PartsOf(before[k]) != PartsOf(m)
    ensures StageOf(s, before + [m])
  {
    hide PartsOf;
    hide Total;
    hide RegularBytes;
    RegularBytesGrow(before, m);
    FilesStayIn(stage, s, before, m);
    hide FilesIn;
    FilesAreOccupied(before);
    forall p ensures (Occupied(before + [m], p) <==> Occupied(before, p) || Occupies(m, p))
                     && (FilePath(before + [m], p) <==> FilePath(before, p) || PartsOf(m) == p)
    {
      OccupiedAppend(before, m, p);
    }
    hide FilePath;
    hide Occupied;
    hide OnTheWay;
  }

  lemma FilesAreOccupied(before: seq<Member>)
    ensures forall p | p != [] && FilePath(before, p) :: Occupied(before, p)
  {
    forall p | p != [] && FilePath(before, p) ensures Occupied(before, p) {
      var k :| 0 <= k < |before| && IsFile(before[k]) && PartsOf(before[k]) == p;
      assert Occupies(before[k], p);
    }
  }

  lemma DirectoryExtracted(stage: Stage, s: Stage, before: seq<Member>, m: Member)
    requires StageOf(stage, before) && m.kind.DirectoryMember? && DirsMade(stage, PartsOf(m), s)
    ensures StageOf(s, before + [m])
  {
    hide PartsOf;
    hide Total;
    hide RegularBytes;
    RegularBytesGrow(before, m);
    FilesStayIn(stage, s, before, m);
    hide FilesIn;
    FilesAreOccupied(before);
    forall p ensures (Occupied(before + [m], p) <==> Occupied(before, p) || Occupies(m, p))
                     && (FilePath(before + [m], p) <==> FilePath(before, p)) { OccupiedAppend(before, m, p); }
    hide FilePath;
    hide Occupied;
    hide OnTheWay;
  }

  lemma LinkSkipped(stage: Stage, before: seq<Member>, m: Member)
    requires StageOf(stage, before) && IsLink(m)
    ensures StageOf(stage, before + [m])
  {
    hide PartsOf;
    hide Total;
    hide RegularBytes;
    RegularBytesGrow(before, m);
    FilesStayIn(stage, stage, before, m);
    hide FilesIn;
    forall p ensures (Occupied(before + [m], p) <==> Occupied(before, p))
                     && (FilePath(before + [m], p) <==> FilePath(before, p)) { OccupiedAppend(before, m, p); }
    hide FilePath;
    hide Occupied;
  }

  /** Extracts a directory or regular member; it fails exactly for a refused kind or a path in the way. */
  method ExtractRegular(stage: Stage, m: Member, parts: Parts, ghost before: seq<Member>) returns (r: Checked<Stage>)
    requires StageOf(stage, before) && !IsLink(m) && PartsOf(m) == parts != []
    requires forall k | 0 <= k < |before| :: PartsOf(before[k]) != parts
    ensures r.Ok? <==>
            && (IsFile(m) || m.kind.DirectoryMember?) && !m.special
            && forall k | 0 <= k < |before| :: !Clash(before[k], m)
    ensures r.Ok? ==> StageOf(r.value, before + [m])
  {
    hide StageOf;
    hide PartsOf;
    hide DirsFree;
    hide Clash;
    if m.kind.OtherMember? || m.special { return Raised; }
    if m.kind.DirectoryMember? {
      RoomForDirectory(stage, before, m);
      MakeDirsExactly(stage, parts);
      r := MakeDirs(stage, parts);
      if r.Ok? { DirectoryExtracted(stage, r.value, before, m); }
    } else {
      RoomForFile(stage, before, m);
      PutFileExactly(stage, parts, File(m.size));
      r := PutFile(stage, parts, File(m.size));
      if r.Ok? { FileExtracted(stage, r.value, before, m); }
    }
  }

  // ------------------------------------------------------------------ the first pass

  ghost predicate LinkIn(links: map<Parts, Parts>, m: Member) {
    IsLink(m) ==> PartsOf(m) != [] && PartsOf(m) in links && Resolve(PartsOf(m), m.linkName) == Ok(links[PartsOf(m)])
  }

  /** The recorded links are those of the members, each with its resolved target. */
  ghost predicate LinksOf(links: map<Parts, Parts>, members: seq<Member>) {
    LinkKeys(links, LinkOrder(members)) && LinkTargets(links, members)
  }

  ghost predicate LinkKeys(links: map<Parts, Parts>, order: seq<Parts>) {
    forall p :: p in links <==> p in order
  }

  ghost predicate LinkTargets(links: map<Parts, Parts>, members: seq<Member>) {
    forall k | 0 <= k < |members| :: LinkIn(links, members[k])
  }

  lemma LinkKeysGrow(links: map<Parts, Parts>, order: seq<Parts>, p: Parts, target: Parts)
    requires LinkKeys(links, order)
    ensures LinkKeys(links[p := target], order + [p])
  {
  }

  lemma LinkOrderGrows(before: seq<Member>, m: Member)
    ensures LinkOrder(before + [m]) == LinkOrder(before) + if IsLink(m) then [PartsOf(m)] else []
  {
    assert (before + [m])[..|before|] == before;
  }

  lemma LinkRecorded(links: map<Parts, Parts>, before: seq<Member>, m: Member, target: Parts)
    requires LinksOf(links, before) && IsLink(m) && PartsOf(m) != [] && Resolve(PartsOf(m), m.linkName) == Ok(target)
    requires forall k | 0 <= k < |before| :: PartsOf(before[k]) != PartsOf(m)
    ensures LinksOf(links[PartsOf(m) := target], before + [m])
    ensures LinkOrder(before + [m]) == LinkOrder(before) + [PartsOf(m)]
  {
    hide PartsOf;
    hide Resolve;
    hide LinkOrder;
    hide LinkKeys;
    LinkOrderGrows(before, m);
    LinkKeysGrow(links, LinkOrder(before), PartsOf(m), target);
    var links' := links[PartsOf(m) := target];
    forall k | 0 <= k < |before + [m]| ensures LinkIn(links', (before + [m])[k]) {
      if k < |before| { assert LinkIn(links, before[k]); }
    }
  }

  lemma NoLinkRecorded(links: map<Parts, Parts>, before: seq<Member>, m: Member)
    requires LinksOf(links, before) && !IsLink(m)
    ensures LinksOf(links, before + [m]) && LinkOrder(before + [m]) == LinkOrder(before)
  {
    hide PartsOf;
    hide Resolve;
    hide LinkOrder;
    hide LinkKeys;
    LinkOrderGrows(before, m);
    assert LinkOrder(before) + [] == LinkOrder(before);
    forall k | 0 <= k < |before + [m]| ensures LinkIn(links, (before + [m])[k]) {
      if k < |before| { assert LinkIn(links, before[k]); }
    }
  }

  ghost predicate SeenIs(seen: set<Parts>, members: seq<Member>) {
    forall p :: p in seen <==> exists k :: 0 <= k < |members| && PartsOf(members[k]) == p
  }

  lemma SeenGrows(seen: set<Parts>, before: seq<Member>, m: Member)
    requires SeenIs(seen, before)
    ensures SeenIs(seen + {PartsOf(m)}, before + [m])
  {
    hide PartsOf;
    var all := before + [m];
    assert all[|before|] == m && forall k | 0 <= k < |before| :: all[k] == before[k];
    forall p ensures p in seen + {PartsOf(m)} <==> exists k :: 0 <= k < |all| && PartsOf(all[k]) == p {
      if p in seen {
        var k :| 0 <= k < |before| && PartsOf(before[k]) == p;
        assert PartsOf(all[k]) == p;
      }
    }
  }

  /** Reads one member name against the names already seen. */
  method MemberParts(m: Member, seen: set<Parts>, allowed: set<string>) returns (r: Checked<Parts>)
    ensures r.Ok? <==> SafeMemberName(m.name).Ok? && PartsOf(m) !in seen && PartsOf(m) != [] && PartsOf(m)[0] in allowed
    ensures r.Ok? ==> r.value == PartsOf(m)
  {
    r := SafeMemberName(m.name);
    if r.Ok? && (r.value in seen || r.value[0] !in allowed) { r := Raised; }
  }

  /** What the first pass holds after some members. */
  ghost predicate PassedSoFar(members: seq<Member>, stage: Stage, links: map<Parts, Parts>, order: seq<Parts>) {
    StageOf(stage, members) && LinksOf(links, members) && order == LinkOrder(members)
  }

  /** Records a link or extracts any other member, given that its name was read. */
  method ExtractMember(ghost before: seq<Member>, m: Member, parts: Parts, declared: Declared,
                       ghost allowed: set<string>, stage: Stage, links: map<Parts, Parts>, order: seq<Parts>)
    returns (ok: bool, stage': Stage, links': map<Parts, Parts>, order': seq<Parts>)
    requires PassedSoFar(before, stage, links, order)
    requires SafeMemberName(m.name).Ok? && PartsOf(m) == parts != [] && parts[0] in allowed
    requires forall k | 0 <= k < |before| :: PartsOf(before[k]) != parts
    ensures ok <==> Admitted(before, m, declared, allowed)
    ensures ok ==> PassedSoFar(before + [m], stage', links', order')
  {
    hide StageOf;
    hide LinksOf;
    hide PartsOf;
    hide SafeMemberName;
    hide Resolve;
    hide LinkOrder;
    ok, stage', links', order' := false, stage, links, order;
    if IsLink(m) {
      if m.name !in declared || m.linkName != declared[m.name] { return; }
      var target := ResolveWrapperTarget(parts, m.linkName);
      if target.Raised? { return; }
      LinkRecorded(links, before, m, target.value);
      LinkSkipped(stage, before, m);
      links', order' := links[parts := target.value], order + [parts];
    } else {
      var next := ExtractRegular(stage, m, parts, before);
      if next.Raised? { return; }
      NoLinkRecorded(links, before, m);
      stage' := next.value;
    }
    ok := true;
  }

  lemma NotAdmitted(members: seq<Member>, declared: Declared, allowed: set<string>, i: nat, seen: set<Parts>)
    requires i < |members| && SeenIs(seen, members[..i])
    requires !(SafeMemberName(members[i].name).Ok? && PartsOf(members[i]) !in seen && PartsOf(members[i]) != []
               && PartsOf(members[i])[0] in allowed)
    ensures !FirstPass(members, declared, allowed)
  {
    hide PartsOf;
    hide SafeMemberName;
    var before, m := members[..i], members[i];
    if PartsOf(m) in seen {
      var k :| 0 <= k < |before| && PartsOf(before[k]) == PartsOf(m);
      assert !PairOk(before[k], m);
    }
    assert !Admitted(before, m, declared, allowed);
  }

  lemma NewName(seen: set<Parts>, before: seq<Member>, parts: Parts)
    requires SeenIs(seen, before) && parts !in seen
    ensures forall k | 0 <= k < |before| :: PartsOf(before[k]) != parts
  {
  }

  lemma NothingPassed()
    ensures PassedSoFar([], map[], map[], []) && SeenIs({}, [])
  {
  }

  /** The first pass: regular members are written, links are only recorded. */
  method ExtractMembers(members: seq<Member>, declared: Declared, allowed: set<string>)
    returns (ok: bool, stage: Stage, links: map<Parts, Parts>, order: seq<Parts>)
    ensures ok <==> FirstPass(members, declared, allowed)
    ensures ok ==> PassedSoFar(members, stage, links, order)
  {
    hide PassedSoFar;
    hide PartsOf;
    hide SafeMemberName;
    hide SeenIs;
    hide Admitted;
    stage, links, order := map[], map[], [];
    var seen: set<Parts> := {};
    var i := 0;
    assert members[..0] == [];
    NothingPassed();
    while i < |members|
      invariant i <= |members| && PassedSoFar(members[..i], stage, links, order) && SeenIs(seen, members[..i])
      invariant forall k | 0 <= k < i :: Admitted(members[..k], members[k], declared, allowed)
    {
      assert members[..i + 1] == members[..i] + [members[i]];
      var name := MemberParts(members[i], seen, allowed);
      if name.Raised? {
        NotAdmitted(members, declared, allowed, i, seen);
        ok := false;
        return;
      }
      NewName(seen, members[..i], name.value);
      ok, stage, links, order :=
        ExtractMember(members[..i], members[i], name.value, declared, allowed, stage, links, order);
      if !ok { return; }
      SeenGrows(seen, members[..i], members[i]);
      seen := seen + {name.value};
      i := i + 1;
    }
    assert members[..i] == members;
    ok := true;
  }

  // ------------------------------------------------------------------- the wrappers

  /** The interpreter that is checked for a wrapper: `bin/node` of its top-level entry. */
  function NodeOf(link: Parts): Parts
    requires link != []
  {
    [link[0], "bin", "node"]
  }

  ghost predicate StagedFile(stage: Stage, p: Parts) {
    p in stage && stage[p].File?
  }

  lemma StagedFileIsMember(stage: Stage, members: seq<Member>, p: Parts)
    requires StageOf(stage, members)
    ensures StagedFile(stage, p) <==> FilePath(members, p)
  {
    if FilePath(members, p) {
      var k :| 0 <= k < |members| && IsFile(members[k]) && PartsOf(members[k]) == p;
      assert FileIn(stage, members[k]);
    }
  }

  /** What the payload of one wrapper is refused for. */
  ghost predicate PayloadOk(declared: Declared, stage: Stage, link: Parts, target: Parts) {
    && link != [] && StagedFile(stage, target) && StagedFile(stage, NodeOf(link)) && link !in stage
    && Join(link) in declared
  }

  /** The wrapper text embeds the target declared under the link's joined name. */
  function WrapperNode(declared: Declared, link: Parts, payloadBytes: string -> nat): Node
    requires Join(link) in declared
  {
    Wrapper(declared[Join(link)], payloadBytes(declared[Join(link)]))
  }

  method WrapperPayload(declared: Declared, stage: Stage, link: Parts, target: Parts, payloadBytes: string -> nat)
    returns (r: Checked<Node>)
    requires link != []
    ensures r.Ok? <==> PayloadOk(declared, stage, link, target)
    ensures r.Ok? ==> r.value == WrapperNode(declared, link, payloadBytes)
  {
    if Join(link) !in declared { return Raised; }
    if target !in stage || !stage[target].File? { return Raised; }
    var node := NodeOf(link);
    if node !in stage || !stage[node].File? || link in stage { return Raised; }
    return Ok(WrapperNode(declared, link, payloadBytes));
  }

  ghost function SizeSum(nodes: seq<Node>): nat {
    if nodes == [] then 0 else SizeSum(nodes[..|nodes| - 1]) + Size(nodes[|nodes| - 1])
  }

  lemma SizeSumAppend(nodes: seq<Node>, n: Node)
    ensures SizeSum(nodes + [n]) == SizeSum(nodes) + Size(n)
  {
    assert (nodes + [n])[..|nodes|] == nodes;
  }

  /** The bytes of all wrappers of these links. */
  ghost function WrapperBytes(declared: Declared, order: seq<Parts>, payloadBytes: string -> nat): nat {
    if order == [] then 0
    else
      var link := order[|order| - 1];
      WrapperBytes(declared, order[..|order| - 1], payloadBytes)
      + if Join(link) in declared then payloadBytes(declared[Join(link)]) else 0
  }

  ghost predicate PayloadsFor(declared: Declared, stage: Stage, links: map<Parts, Parts>, order: seq<Parts>) {
    forall k | 0 <= k < |order| :: order[k] in links && PayloadOk(declared, stage, order[k], links[order[k]])
  }

  ghost predicate NodesFor(declared: Declared, order: seq<Parts>, payloadBytes: string -> nat, nodes: seq<Node>) {
    && |nodes| == |order|
    && (forall k | 0 <= k < |order| ::
          Join(order[k]) in declared && nodes[k] == WrapperNode(declared, order[k], payloadBytes))
  }

  /** One payload per link, with their total size; nothing is written yet. */
  method BuildPayloads(declared: Declared, stage: Stage, links: map<Parts, Parts>, order: seq<Parts>,
                       payloadBytes: string -> nat)
    returns (ok: bool, nodes: seq<Node>, bytes: nat)
    requires forall k | 0 <= k < |order| :: order[k] in links && order[k] != []
    ensures ok <==> PayloadsFor(declared, stage, links, order)
    ensures ok ==> NodesFor(declared, order, payloadBytes, nodes)
    ensures ok ==> bytes == SizeSum(nodes) == WrapperBytes(declared, order, payloadBytes)
  {
    hide PayloadOk;
    hide Join;
    hide NodesFor;
    hide WrapperBytes;
    hide SizeSum;
    nodes, bytes := [], 0;
    NoPayloads(declared, order, payloadBytes);
    while |nodes| < |order|
      invariant |nodes| <= |order| && bytes == SizeSum(nodes) == WrapperBytes(declared, order[..|nodes|], payloadBytes)
      invariant forall k | 0 <= k < |nodes| :: PayloadOk(declared, stage, order[k], links[order[k]])
      invariant NodesFor(declared, order[..|nodes|], payloadBytes, nodes)
    {
      var link := order[|nodes|];
      var r := WrapperPayload(declared, stage, link, links[link], payloadBytes);
      if r.Raised? { ok := false; return; }
      PayloadDeclared(declared, stage, link, links[link]);
      OneMorePayload(declared, order, payloadBytes, nodes);
      nodes, bytes := nodes + [r.value], bytes + Size(r.value);
    }
    assert order[..|nodes|] == order;
    ok := true;
  }

  lemma NoPayloads(declared: Declared, order: seq<Parts>, payloadBytes: string -> nat)
    ensures NodesFor(declared, order[..0], payloadBytes, [])
    ensures SizeSum([]) == WrapperBytes(declared, order[..0], payloadBytes) == 0
  {
  }

  lemma OneMorePayload(declared: Declared, order: seq<Parts>, payloadBytes: string -> nat, nodes: seq<Node>)
    requires |nodes| < |order| && NodesFor(declared, order[..|nodes|], payloadBytes, nodes)
             && Join(order[|nodes|]) in declared
    ensures var node := WrapperNode(declared, order[|nodes|], payloadBytes);
            && NodesFor(declared, order[..|nodes| + 1], payloadBytes, nodes + [node])
            && SizeSum(nodes + [node]) == SizeSum(nodes) + Size(node)
            && WrapperBytes(declared, order[..|nodes| + 1], payloadBytes)
               == WrapperBytes(declared, order[..|nodes|], payloadBytes) + Size(node)
  {
    hide Join;
    var next := order[..|nodes| + 1];
    assert next == order[..|nodes|] + [order[|nodes|]] && next[..|nodes|] == order[..|nodes|];
    SizeSumAppend(nodes, WrapperNode(declared, order[|nodes|], payloadBytes));
  }

  lemma PayloadDeclared(declared: Declared, stage: Stage, link: Parts, target: Parts)
    requires PayloadOk(declared, stage, link, target)
    ensures link != [] && Join(link) in declared
  {
  }

  // -------------------------------------------------------------- writing wrappers

  /** No link's path is on the way to another's. */
  predicate Unnested(a: Parts, b: Parts) {
    !(a <= b) && !(b <= a)
  }

  /** The `i`-th wrapper finds its way free and does not meet an earlier one. */
  ghost predicate RoomAt(stage: Stage, order: seq<Parts>, i: nat)
    requires i < |order|
  {
    && order[i] != [] && order[i] !in stage && DirsFree(stage, order[i][..|order[i]| - 1])
    && (forall j | 0 <= j < i :: Unnested(order[j], order[i]))
  }

  ghost predicate OnSomeWay(order: seq<Parts>, n: nat, p: Parts)
    requires n <= |order|
  {
    exists j :: 0 <= j < n && OnTheWay(p, order[j])
  }

  ghost predicate Listed(order: seq<Parts>, n: nat, p: Parts)
    requires n <= |order|
  {
    exists j :: 0 <= j < n && order[j] == p
  }

  lemma OneMoreWay(order: seq<Parts>, n: nat, p: Parts)
    requires n < |order|
    ensures OnSomeWay(order, n + 1, p) <==> OnSomeWay(order, n, p) || OnTheWay(p, order[n])
    ensures Listed(order, n + 1, p) <==> Listed(order, n, p) || p == order[n]
  {
    if OnSomeWay(order, n, p) {
      var j :| 0 <= j < n && OnTheWay(p, order[j]);
      assert 0 <= j < n + 1 && OnTheWay(p, order[j]);
    }
  }

  /** The stage after the first `n` wrappers: the old stage, the wrappers, and the ways to them. */
  ghost predicate Written(stage: Stage, s: Stage, order: seq<Parts>, nodes: seq<Node>, n: nat)
    requires n <= |order| == |nodes|
  {
    && Total(s) == Total(stage) + SizeSum(nodes[..n])
    && (forall p :: p in s <==> p in stage || OnSomeWay(order, n, p))
    && (forall p | p in stage :: s[p] == stage[p])
    && (forall k | 0 <= k < n :: order[k] in s && s[order[k]] == nodes[k])
    && (forall p | p in s && p !in stage && !Listed(order, n, p) :: s[p] == Dir)
  }

  /** Paths that do not nest are not on each other's way. */
  lemma UnnestedWays(a: Parts, b: Parts)
    requires a != [] && b != []
    ensures Unnested(a, b) <==> !OnTheWay(b, a) && a != b && !OnTheWay(a, b[..|b| - 1])
  {
    WayStep(a, b);
  }

  lemma RoomGivesFree(stage: Stage, s: Stage, order: seq<Parts>, nodes: seq<Node>, i: nat)
    requires i < |order| == |nodes| && Written(stage, s, order, nodes, i) && RoomAt(stage, order, i)
    requires forall k | 0 <= k < i :: order[k] != []
    ensures order[i] !in s && DirsFree(s, order[i][..|order[i]| - 1])
  {
    hide Total;
    hide SizeSum;
    hide OnTheWay;
    hide Unnested;
    var link := order[i];
    var front := link[..|link| - 1];
    forall j | 0 <= j < i
      ensures !OnTheWay(link, order[j]) && !OnTheWay(order[j], front) { UnnestedWays(order[j], link); }
    assert !OnSomeWay(order, i, link);
    forall p | OnTheWay(p, front) ensures !Listed(order, i, p) { }
    hide OnSomeWay;
    hide Listed;
    hide RoomAt;
    assert DirsFree(stage, front) && link !in stage by { RoomIsFree(stage, order, i); }
  }

  lemma RoomIsFree(stage: Stage, order: seq<Parts>, i: nat)
    requires i < |order| && RoomAt(stage, order, i)
    ensures order[i] != [] && order[i] !in stage && DirsFree(stage, order[i][..|order[i]| - 1])
  {
  }

  lemma FreeGivesRoom(stage: Stage, s: Stage, order: seq<Parts>, nodes: seq<Node>, i: nat)
    requires i < |order| == |nodes| && Written(stage, s, order, nodes, i) && order[i] != []
    requires forall k | 0 <= k < i :: nodes[k].Wrapper? && order[k] !in stage && order[k] != []
    requires order[i] !in s && DirsFree(s, order[i][..|order[i]| - 1])
    ensures RoomAt(stage, order, i)
  {
    hide Total;
    hide SizeSum;
    hide OnTheWay;
    hide Unnested;
    var link := order[i];
    var front := link[..|link| - 1];
    assert !OnSomeWay(order, i, link);
    forall j | 0 <= j < i ensures Unnested(order[j], link) {
      UnnestedWays(order[j], link);
      assert order[j] in s && s[order[j]] == nodes[j];
    }
    forall p | OnTheWay(p, front) && p in stage ensures stage[p].Dir? { assert s[p] == stage[p]; }
  }

  lemma WriteOne(stage: Stage, s: Stage, s': Stage, order: seq<Parts>, nodes: seq<Node>, n: nat)
    requires n < |order| == |nodes| && Written(stage, s, order, nodes, n)
    requires order[n] !in s && FilePut(s, order[n], nodes[n], s')
    ensures Written(stage, s', order, nodes, n + 1)
  {
    hide Total;
    hide SizeSum;
    hide OnSomeWay;
    hide OnTheWay;
    hide Listed;
    assert nodes[..n + 1] == nodes[..n] + [nodes[n]];
    SizeSumAppend(nodes[..n], nodes[n]);
    forall p ensures (OnSomeWay(order, n + 1, p) <==> OnSomeWay(order, n, p) || OnTheWay(p, order[n]))
                     && (Listed(order, n + 1, p) <==> Listed(order, n, p) || p == order[n])
    {
      OneMoreWay(order, n, p);
    }
  }

  lemma NothingWritten(stage: Stage, order: seq<Parts>, nodes: seq<Node>)
    requires |order| == |nodes|
    ensures Written(stage, stage, order, nodes, 0)
  {
    assert nodes[..0] == [];
  }

  method WriteWrappers(stage: Stage, order: seq<Parts>, nodes: seq<Node>) returns (r: Checked<Stage>)
    requires |order| == |nodes| && (forall k | 0 <= k < |order| :: order[k] != [] && nodes[k].Wrapper?)
    ensures r.Ok? <==> forall i | 0 <= i < |order| :: RoomAt(stage, order, i)
    ensures r.Ok? ==> Written(stage, r.value, order, nodes, |order|)
  {
    hide Written;
    hide RoomAt;
    hide DirsFree;
    hide FilePut;
    var s, i := stage, 0;
    NothingWritten(stage, order, nodes);
    while i < |order|
      invariant i <= |order| && Written(stage, s, order, nodes, i)
      invariant forall k | 0 <= k < i :: RoomAt(stage, order, k) && order[k] !in stage
    {
      if RoomAt(stage, order, i) { RoomGivesFree(stage, s, order, nodes, i); }
      PutFileExactly(s, order[i], nodes[i]);
      var next := PutFile(s, order[i], nodes[i]);
      if next.Raised? { return Raised; }
      FreeGivesRoom(stage, s, order, nodes, i);
      RoomIsFree(stage, order, i);
      WriteOne(stage, s, next.value, order, nodes, i);
      s, i := next.value, i + 1;
    }
    return Ok(s);
  }

  // ----------------------------------------------------- which archives are extracted

  predicate Leaf(m: Member) { IsFile(m) || IsLink(m) }

  /** Different paths, and neither a file nor a link on the way to the other. */
  ghost predicate Apart(a: Member, b: Member) {
    && PartsOf(a) != PartsOf(b)
    && (Leaf(a) ==> !(PartsOf(a) <= PartsOf(b))) && (Leaf(b) ==> !(PartsOf(b) <= PartsOf(a)))
  }

  ghost predicate AllApart(members: seq<Member>) {
    forall i, j | 0 <= i < j < |members| :: Apart(members[i], members[j])
  }

  /** A link's target and its interpreter are regular members, and its joined name is declared. */
  ghost predicate LinkOk(members: seq<Member>, declared: Declared, m: Member) {
    IsLink(m) ==>
      && PartsOf(m) != [] && Join(PartsOf(m)) in declared && Resolve(PartsOf(m), m.linkName).Ok?
      && FilePath(members, Resolve(PartsOf(m), m.linkName).value) && FilePath(members, NodeOf(PartsOf(m)))
  }

  /** The parts of the declared paths; the extraction raises unless they are all safe. */
  function DeclaredPaths(declared: Declared): set<Parts> {
    set d | d in declared && SafeMemberName(d).Ok? :: SafeMemberName(d).value
  }

  function LinkPaths(members: seq<Member>): set<Parts> {
    set p | p in LinkOrder(members)
  }

  ghost predicate DeclaredExactly(declared: Declared, paths: set<Parts>) {
    (forall d | d in declared :: SafeMemberName(d).Ok?) && DeclaredPaths(declared) == paths
  }

  /** The archives that the extraction accepts. */
  ghost predicate Extractable(members: seq<Member>, declared: Declared, allowed: set<string>, maxMembers: nat,
                              maxBytes: nat, payloadBytes: string -> nat)
  {
    && |members| <= maxMembers
    && (forall i | 0 <= i < |members| :: MemberOk(members[i], declared, allowed))
    && AllApart(members)
    && DeclaredExactly(declared, LinkPaths(members))
    && (forall i | 0 <= i < |members| :: LinkOk(members, declared, members[i]))
    && RegularBytes(members) + WrapperBytes(declared, LinkOrder(members), payloadBytes) <= maxBytes
  }

  lemma {:induction false} LinkOrderMembers(members: seq<Member>, p: Parts)
    ensures p in LinkOrder(members)
            <==> exists k :: 0 <= k < |members| && IsLink(members[k]) && PartsOf(members[k]) == p
  {
    if members != [] {
      var front, m := members[..|members| - 1], members[|members| - 1];
      LinkOrderMembers(front, p);
      hide PartsOf;
      assert members == front + [m];
      LinkOrderGrows(front, m);
      hide LinkOrder;
      if p in LinkOrder(front) {
        var k :| 0 <= k < |front| && IsLink(front[k]) && PartsOf(front[k]) == p;
        assert IsLink(members[k]) && PartsOf(members[k]) == p;
      }
    }
  }

  lemma FirstPassPairs(members: seq<Member>, declared: Declared, allowed: set<string>)
    ensures FirstPass(members, declared, allowed) <==>
            && (forall i | 0 <= i < |members| :: MemberOk(members[i], declared, allowed))
            && (forall i, j | 0 <= i < j < |members| :: PairOk(members[i], members[j]))
  {
    hide PartsOf;
    hide MemberOk;
    hide PairOk;
    if FirstPass(members, declared, allowed) {
      forall i, j | 0 <= i < j < |members| ensures PairOk(members[i], members[j]) {
        assert Admitted(members[..j], members[j], declared, allowed);
        assert members[..j][i] == members[i];
      }
      forall i | 0 <= i < |members| ensures MemberOk(members[i], declared, allowed) {
        assert Admitted(members[..i], members[i], declared, allowed);
      }
    }
  }

  lemma ApartIsPairOk(members: seq<Member>)
    requires AllApart(members)
    ensures forall i, j | 0 <= i < j < |members| :: PairOk(members[i], members[j])
  {
    hide PartsOf;
    forall i, j | 0 <= i < j < |members|
      ensures PairOk(members[i], members[j]) { assert Apart(members[i], members[j]); }
  }

  lemma {:induction false} LinkOrderDistinct(members: seq<Member>, a: nat, b: nat)
    requires forall i, j | 0 <= i < j < |members| :: PairOk(members[i], members[j])
    requires a < b < |LinkOrder(members)|
    ensures LinkOrder(members)[a] != LinkOrder(members)[b]
  {
    hide PartsOf;
    hide Clash;
    var front, m := members[..|members| - 1], members[|members| - 1];
    assert members == front + [m];
    LinkOrderGrows(front, m);
    if b < |LinkOrder(front)| {
      LinkOrderDistinct(front, a, b);
    } else {
      LinkOrderMembers(front, LinkOrder(front)[a]);
      var k :| 0 <= k < |front| && IsLink(front[k]) && PartsOf(front[k]) == LinkOrder(front)[a];
      assert PairOk(members[k], members[|members| - 1]);
    }
  }

  // -------------------------------------- room for the wrappers, in the archive's terms

  /** Every link's way is free and no two links nest. */
  ghost predicate LinksClear(stage: Stage, order: seq<Parts>) {
    && (forall p | p in order :: p != [] && p !in stage && DirsFree(stage, p[..|p| - 1]))
    && (forall p, q | p in order && q in order && p != q :: Unnested(p, q))
  }

  lemma RoomIsClear(stage: Stage, order: seq<Parts>)
    requires forall a, b | 0 <= a < b < |order| :: order[a] != order[b]
    ensures (forall i | 0 <= i < |order| :: RoomAt(stage, order, i)) <==> LinksClear(stage, order)
  {
    hide DirsFree;
    hide Unnested;
    if forall i | 0 <= i < |order| :: RoomAt(stage, order, i) {
      forall p | p in order ensures p != [] && p !in stage && DirsFree(stage, p[..|p| - 1]) {
        var i :| 0 <= i < |order| && order[i] == p;
        assert RoomAt(stage, order, i);
      }
      forall p, q | p in order && q in order && p != q ensures Unnested(p, q) {
        var i :| 0 <= i < |order| && order[i] == p;
        var j :| 0 <= j < |order| && order[j] == q;
        UnnestedIsSymmetric(p, q);
        assert RoomAt(stage, order, i) && RoomAt(stage, order, j);
      }
    }
    if LinksClear(stage, order) {
      forall i | 0 <= i < |order| ensures RoomAt(stage, order, i) {
        assert order[i] in order;
        forall j | 0 <= j < i ensures Unnested(order[j], order[i]) { assert order[j] in order; }
      }
    }
  }

  lemma UnnestedIsSymmetric(p: Parts, q: Parts)
    ensures Unnested(p, q) <==> Unnested(q, p)
  {
  }

  /** One link against one extracted member. */
  lemma LinkBesideMember(stage: Stage, members: seq<Member>, p: Parts, k: nat)
    requires StageOf(stage, members) && p != [] && k < |members| && !IsLink(members[k]) && PartsOf(members[k]) != p
    requires p !in stage && DirsFree(stage, p[..|p| - 1])
    ensures !(p <= PartsOf(members[k])) && (IsFile(members[k]) ==> !(PartsOf(members[k]) <= p))
  {
    hide PartsOf;
    var q := PartsOf(members[k]);
    assert Occupies(members[k], p) ==> Occupied(members, p);
    if IsFile(members[k]) {
      WayStep(q, p);
      assert FileIn(stage, members[k]);
      assert Occupied(members, q);
    }
  }

  lemma MembersBesideLink(stage: Stage, members: seq<Member>, p: Parts)
    requires StageOf(stage, members) && p != []
    requires forall k | 0 <= k < |members| && !IsLink(members[k]) ::
               !(p <= PartsOf(members[k])) && (IsFile(members[k]) ==> !(PartsOf(members[k]) <= p))
    ensures p !in stage && DirsFree(stage, p[..|p| - 1])
  {
    hide PartsOf;
    forall k | 0 <= k < |members| ensures !Occupies(members[k], p) { }
    assert !Occupied(members, p);
    var front := p[..|p| - 1];
    forall q | OnTheWay(q, front) ensures !FilePath(members, q) { WayStep(q, p); }
  }

  lemma ClearGivesApart(stage: Stage, members: seq<Member>, i: nat, j: nat)
    requires StageOf(stage, members) && LinksClear(stage, LinkOrder(members)) && i < |members| && j < |members|
             && i != j
    requires PairOk(members[i], members[j]) || PairOk(members[j], members[i])
    ensures Apart(members[i], members[j])
  {
    hide PartsOf;
    hide StageOf;
    hide DirsFree;
    var a, b := members[i], members[j];
    LinkOrderMembers(members, PartsOf(a));
    LinkOrderMembers(members, PartsOf(b));
    if IsLink(a) && IsLink(b) {
      assert Unnested(PartsOf(a), PartsOf(b));
    } else if IsLink(a) {
      LinkBesideMember(stage, members, PartsOf(a), j);
    } else if IsLink(b) {
      LinkBesideMember(stage, members, PartsOf(b), i);
    }
  }

  lemma ApartSymmetric(members: seq<Member>, i: nat, j: nat)
    requires AllApart(members) && i < |members| && j < |members| && i != j
    ensures Apart(members[i], members[j])
  {
    hide PartsOf;
    if j < i { assert Apart(members[j], members[i]); }
  }

  lemma ApartGivesClear(stage: Stage, members: seq<Member>)
    requires StageOf(stage, members) && AllApart(members)
             && (forall i | 0 <= i < |members| :: PartsOf(members[i]) != [])
    ensures LinksClear(stage, LinkOrder(members))
  {
    hide PartsOf;
    hide StageOf;
    hide DirsFree;
    hide AllApart;
    var order := LinkOrder(members);
    forall p | p in order ensures p != [] && p !in stage && DirsFree(stage, p[..|p| - 1]) {
      LinkOrderMembers(members, p);
      var k :| 0 <= k < |members| && IsLink(members[k]) && PartsOf(members[k]) == p;
      forall j | 0 <= j < |members| && !IsLink(members[j])
        ensures !(p <= PartsOf(members[j])) && (IsFile(members[j]) ==> !(PartsOf(members[j]) <= p))
      {
        ApartSymmetric(members, k, j);
      }
      MembersBesideLink(stage, members, p);
    }
    forall p, q | p in order && q in order && p != q ensures Unnested(p, q) {
      LinkOrderMembers(members, p);
      LinkOrderMembers(members, q);
      var k :| 0 <= k < |members| && IsLink(members[k]) && PartsOf(members[k]) == p;
      var j :| 0 <= j < |members| && IsLink(members[j]) && PartsOf(members[j]) == q;
      ApartSymmetric(members, k, j);
    }
  }

  // -------------------------------------------------------------- the whole extraction

  /** One link of a finished extraction: its wrapper embeds the text declared under its joined name, and the
      file its own link text resolves to and the interpreter of its entry are extracted regular files. */
  ghost predicate CheckedWrapper(declared: Declared, stage: Stage, m: Member) {
    && PartsOf(m) != [] && PartsOf(m) in stage && stage[PartsOf(m)].Wrapper?
    && Join(PartsOf(m)) in declared && stage[PartsOf(m)].target == declared[Join(PartsOf(m))]
    && Resolve(PartsOf(m), m.linkName).Ok? && StagedFile(stage, Resolve(PartsOf(m), m.linkName).value)
    && StagedFile(stage, NodeOf(PartsOf(m)))
  }

  function WrapperPaths(stage: Stage): set<Parts> {
    set p | p in stage && stage[p].Wrapper?
  }

  /** A path on the way to some member. */
  ghost predicate Reached(members: seq<Member>, p: Parts) {
    exists k :: 0 <= k < |members| && OnTheWay(p, PartsOf(members[k]))
  }

  /** The paths of a finished extraction: every member, the ways to them, and nothing else. */
  ghost predicate ExactPaths(members: seq<Member>, stage: Stage) {
    && (forall p :: p in stage <==> Reached(members, p))
    && (forall p :: StagedFile(stage, p) <==> FilePath(members, p))
  }

  /** What a finished extraction leaves. */
  ghost predicate Extracted(members: seq<Member>, declared: Declared, stage: Stage, payloadBytes: string -> nat) {
    && ExactPaths(members, stage)
    && WrapperPaths(stage) == LinkPaths(members)
    && FilesIn(stage, members)
    && (forall k | 0 <= k < |members| && IsLink(members[k]) :: CheckedWrapper(declared, stage, members[k]))
    && Total(stage) == RegularBytes(members) + WrapperBytes(declared, LinkOrder(members), payloadBytes)
  }

  /** What the second pass checks, in the terms in which it checks it. */
  ghost predicate SecondPass(declared: Declared, stage: Stage, links: map<Parts, Parts>, order: seq<Parts>,
                             regularBytes: nat, maximum: nat, payloadBytes: string -> nat)
  {
    && DeclaredExactly(declared, links.Keys)
    && (forall p | p in links :: links[p] !in links)
    && PayloadsFor(declared, stage, links, order)
    && regularBytes + WrapperBytes(declared, order, payloadBytes) <= maximum
    && (forall i | 0 <= i < |order| :: RoomAt(stage, order, i))
  }

  method MaterializeWrappers(declared: Declared, stage: Stage, links: map<Parts, Parts>, order: seq<Parts>,
                             regularBytes: nat, maximum: nat, payloadBytes: string -> nat)
    returns (r: Checked<Stage>, ghost nodes: seq<Node>)
    requires forall k | 0 <= k < |order| :: order[k] in links && order[k] != []
    ensures r.Ok? <==> SecondPass(declared, stage, links, order, regularBytes, maximum, payloadBytes)
    ensures r.Ok? ==>
              && NodesFor(declared, order, payloadBytes, nodes)
              && SizeSum(nodes) == WrapperBytes(declared, order, payloadBytes)
    ensures r.Ok? ==> |nodes| == |order| && Written(stage, r.value, order, nodes, |order|)
  {
    hide SafeMemberName;
    hide PayloadsFor;
    hide RoomAt;
    hide Written;
    nodes := [];
    if exists d | d in declared :: SafeMemberName(d).Raised? { return Raised, nodes; }
    if links.Keys != DeclaredPaths(declared) { return Raised, nodes; }
    if exists p | p in links :: links[p] in links { return Raised, nodes; }
    hide DeclaredPaths;
    var ok, payloads, bytes := BuildPayloads(declared, stage, links, order, payloadBytes);
    nodes := payloads;
    if !ok || regularBytes + bytes > maximum { return Raised, nodes; }
    hide WrapperBytes;
    hide SizeSum;
    r := WriteWrappers(stage, order, payloads);
  }

  lemma SumRegularStep(members: seq<Member>, i: nat)
    requires i < |members|
    ensures RegularBytes(members[..i + 1]) == RegularBytes(members[..i])
              + if IsFile(members[i]) then members[i].size else 0
  {
    assert members[..i + 1][..i] == members[..i];
  }

  method SumRegular(members: seq<Member>) returns (bytes: nat)
    ensures bytes == RegularBytes(members)
  {
    bytes := 0;
    var i := 0;
    while i < |members|
      invariant i <= |members| && bytes == RegularBytes(members[..i])
    {
      SumRegularStep(members, i);
      if IsFile(members[i]) { bytes := bytes + members[i].size; }
      i := i + 1;
    }
    assert members[..i] == members;
  }

  /** The payload checks are the link conditions, and paths outside the stage. */
  lemma PayloadsAreLinks(members: seq<Member>, declared: Declared, stage: Stage, links: map<Parts, Parts>,
                         order: seq<Parts>)
    requires PassedSoFar(members, stage, links, order)
    ensures PayloadsFor(declared, stage, links, order) <==>
            && (forall i | 0 <= i < |members| :: LinkOk(members, declared, members[i]))
            && (forall p | p in order :: p !in stage)
  {
    hide PartsOf;
    hide Resolve;
    hide StageOf;
    hide Join;
    hide LinkOrder;
    hide FilePath;
    forall q ensures StagedFile(stage, q) <==> FilePath(members, q) { StagedFileIsMember(stage, members, q); }
    hide StagedFile;
    if PayloadsFor(declared, stage, links, order) {
      forall i | 0 <= i < |members| && IsLink(members[i]) ensures LinkOk(members, declared, members[i]) {
        var p := PartsOf(members[i]);
        LinkOrderMembers(members, p);
        var k :| 0 <= k < |order| && order[k] == p;
        assert PayloadOk(declared, stage, order[k], links[order[k]]) && LinkIn(links, members[i]);
      }
      forall p | p in order ensures p !in stage {
        var k :| 0 <= k < |order| && order[k] == p;
        assert PayloadOk(declared, stage, order[k], links[order[k]]);
      }
    }
    if (forall i | 0 <= i < |members| :: LinkOk(members, declared, members[i]))
       && (forall p | p in order :: p !in stage) {
      forall k | 0 <= k < |order| ensures order[k] in links && PayloadOk(declared, stage, order[k], links[order[k]]) {
        assert order[k] in order;
        LinkOrderMembers(members, order[k]);
        var i :| 0 <= i < |members| && IsLink(members[i]) && PartsOf(members[i]) == order[k];
        assert LinkOk(members, declared, members[i]) && LinkIn(links, members[i]);
      }
    }
  }

  /** A target that is a regular member is not a link. */
  lemma NoChains(members: seq<Member>, declared: Declared, stage: Stage, links: map<Parts, Parts>, order: seq<Parts>,
                 p: Parts)
    requires PassedSoFar(members, stage, links, order) && p in links
    requires forall i, j | 0 <= i < j < |members| :: PairOk(members[i], members[j])
    requires forall i | 0 <= i < |members| :: LinkOk(members, declared, members[i])
    ensures links[p] !in links
  {
    hide PartsOf;
    hide Resolve;
    hide StageOf;
    hide Join;
    hide LinkOrder;
    LinkOrderMembers(members, p);
    var i :| 0 <= i < |members| && IsLink(members[i]) && PartsOf(members[i]) == p;
    assert LinkOk(members, declared, members[i]) && LinkIn(links, members[i]);
    var k :| 0 <= k < |members| && IsFile(members[k]) && PartsOf(members[k]) == links[p];
    LinkOrderMembers(members, links[p]);
    forall j | 0 <= j < |members| && IsLink(members[j]) ensures PartsOf(members[j]) != links[p] {
      assert if j < k then PairOk(members[j], members[k]) else PairOk(members[k], members[j]);
    }
  }

  ghost predicate AllRoom(stage: Stage, order: seq<Parts>) {
    forall i | 0 <= i < |order| :: RoomAt(stage, order, i)
  }

  ghost predicate AllLinksOk(members: seq<Member>, declared: Declared) {
    forall i | 0 <= i < |members| :: LinkOk(members, declared, members[i])
  }

  ghost predicate AllPairsOk(members: seq<Member>) {
    forall i, j | 0 <= i < j < |members| :: PairOk(members[i], members[j])
  }

  lemma RoomMeansApart(members: seq<Member>, stage: Stage, order: seq<Parts>)
    requires StageOf(stage, members) && order == LinkOrder(members) && AllPairsOk(members)
    requires forall i | 0 <= i < |members| :: PartsOf(members[i]) != []
    ensures AllRoom(stage, order) <==> AllApart(members)
  {
    hide PartsOf;
    hide StageOf;
    hide AllApart;
    forall a, b | 0 <= a < b < |order| ensures order[a] != order[b] { LinkOrderDistinct(members, a, b); }
    RoomIsClear(stage, order);
    hide LinkOrder;
    hide PairOk;
    hide RoomAt;
    hide LinksClear;
    if LinksClear(stage, order) { AllApartFromClear(stage, members); }
    if AllApart(members) { ApartGivesClear(stage, members); }
  }

  lemma RoomIsOutsideAll(stage: Stage, order: seq<Parts>)
    requires AllRoom(stage, order)
    ensures forall p | p in order :: p !in stage
  {
    forall p | p in order ensures p !in stage {
      var k :| 0 <= k < |order| && order[k] == p;
      RoomIsFree(stage, order, k);
    }
  }

  /** The checks on the links, given room for them, are the archive's link conditions. */
  lemma ChecksAreLinksOk(members: seq<Member>, declared: Declared, stage: Stage, links: map<Parts, Parts>,
                         order: seq<Parts>)
    requires PassedSoFar(members, stage, links, order) && AllPairsOk(members) && AllRoom(stage, order)
    ensures (PayloadsFor(declared, stage, links, order) && forall p | p in links :: links[p] !in links)
            <==> AllLinksOk(members, declared)
  {
    PayloadsAreLinks(members, declared, stage, links, order);
    RoomIsOutsideAll(stage, order);
    hide PassedSoFar;
    hide PayloadsFor;
    hide LinkOk;
    hide PairOk;
    if AllLinksOk(members, declared) {
      forall p | p in links ensures links[p] !in links { NoChains(members, declared, stage, links, order, p); }
    }
  }

  /** Both passes succeed exactly for the extractable archives. */
  lemma PassesAreExtractable(members: seq<Member>, declared: Declared, allowed: set<string>, maxMembers: nat,
                             maxBytes: nat, payloadBytes: string -> nat, stage: Stage, links: map<Parts, Parts>,
                             order: seq<Parts>)
    requires |members| <= maxMembers && FirstPass(members, declared, allowed)
             && PassedSoFar(members, stage, links, order)
    ensures SecondPass(declared, stage, links, order, RegularBytes(members), maxBytes, payloadBytes)
            <==> Extractable(members, declared, allowed, maxMembers, maxBytes, payloadBytes)
  {
    hide *;
    assert StageOf(stage, members) && order == LinkOrder(members) && links.Keys == LinkPaths(members) by {
      PassedGives(members, stage, links, order);
    }
    assert AllPairsOk(members) && (forall i | 0 <= i < |members| :: PartsOf(members[i]) != [])
           && (forall i | 0 <= i < |members| :: MemberOk(members[i], declared, allowed)) by {
      FirstPassGives(members, declared, allowed);
    }
    RoomMeansApart(members, stage, order);
    if AllRoom(stage, order) { ChecksAreLinksOk(members, declared, stage, links, order); }
    SecondPassParts(declared, stage, links, order, RegularBytes(members), maxBytes, payloadBytes);
    ExtractableParts(members, declared, allowed, maxMembers, maxBytes, payloadBytes);
  }

  lemma PassedGives(members: seq<Member>, stage: Stage, links: map<Parts, Parts>, order: seq<Parts>)
    requires PassedSoFar(members, stage, links, order)
    ensures StageOf(stage, members) && order == LinkOrder(members) && links.Keys == LinkPaths(members)
  {
    hide StageOf;
    hide LinkTargets;
    hide LinkOrder;
  }

  lemma FirstPassGives(members: seq<Member>, declared: Declared, allowed: set<string>)
    requires FirstPass(members, declared, allowed)
    ensures AllPairsOk(members)
    ensures forall i | 0 <= i < |members| :: MemberOk(members[i], declared, allowed)
    ensures forall i | 0 <= i < |members| :: PartsOf(members[i]) != []
  {
    FirstPassPairs(members, declared, allowed);
    hide PairOk;
    hide PartsOf;
    hide FirstPass;
    forall i | 0 <= i < |members| ensures PartsOf(members[i]) != [] { assert MemberOk(members[i], declared, allowed); }
  }

  lemma SecondPassParts(declared: Declared, stage: Stage, links: map<Parts, Parts>, order: seq<Parts>,
                        regularBytes: nat, maximum: nat, payloadBytes: string -> nat)
    ensures SecondPass(declared, stage, links, order, regularBytes, maximum, payloadBytes) <==>
            && DeclaredExactly(declared, links.Keys)
            && (PayloadsFor(declared, stage, links, order) && forall p | p in links :: links[p] !in links)
            && regularBytes + WrapperBytes(declared, order, payloadBytes) <= maximum
            && AllRoom(stage, order)
  {
    hide DeclaredExactly;
    hide PayloadsFor;
    hide WrapperBytes;
    hide RoomAt;
  }

  lemma ExtractableParts(members: seq<Member>, declared: Declared, allowed: set<string>, maxMembers: nat, maxBytes: nat,
                         payloadBytes: string -> nat)
    ensures Extractable(members, declared, allowed, maxMembers, maxBytes, payloadBytes) <==>
            && |members| <= maxMembers
            && (forall i | 0 <= i < |members| :: MemberOk(members[i], declared, allowed))
            && AllApart(members)
            && DeclaredExactly(declared, LinkPaths(members))
            && AllLinksOk(members, declared)
            && RegularBytes(members) + WrapperBytes(declared, LinkOrder(members), payloadBytes) <= maxBytes
  {
    hide MemberOk;
    hide AllApart;
    hide DeclaredExactly;
    hide LinkPaths;
    hide LinkOk;
    hide RegularBytes;
    hide WrapperBytes;
    hide LinkOrder;
  }

  lemma AllApartFromClear(stage: Stage, members: seq<Member>)
    requires StageOf(stage, members) && LinksClear(stage, LinkOrder(members))
    requires forall i, j | 0 <= i < j < |members| :: PairOk(members[i], members[j])
    ensures AllApart(members)
  {
    hide StageOf;
    hide LinksClear;
    hide PartsOf;
    forall i, j | 0 <= i < j < |members|
      ensures Apart(members[i], members[j]) { ClearGivesApart(stage, members, i, j); }
  }

  lemma ExtractableMeansFirstPass(members: seq<Member>, declared: Declared, allowed: set<string>, maxMembers: nat,
                                  maxBytes: nat, payloadBytes: string -> nat)
    requires Extractable(members, declared, allowed, maxMembers, maxBytes, payloadBytes)
    ensures FirstPass(members, declared, allowed) && |members| <= maxMembers && RegularBytes(members) <= maxBytes
  {
    ApartIsPairOk(members);
    FirstPassPairs(members, declared, allowed);
  }

  /** The wrappers in the final stage are the links. */
  lemma WrittenWrappers(members: seq<Member>, declared: Declared, stage: Stage, order: seq<Parts>, nodes: seq<Node>,
                        s: Stage, payloadBytes: string -> nat)
    requires StageOf(stage, members) && NodesFor(declared, order, payloadBytes, nodes)
             && Written(stage, s, order, nodes, |order|)
    requires forall k | 0 <= k < |order| :: order[k] !in stage
    ensures forall p :: p in WrapperPaths(s) <==> p in order
  {
    hide PartsOf;
    hide Join;
    hide Total;
    hide SizeSum;
    hide Occupied;
    hide FilePath;
    hide OnSomeWay;
    forall p ensures p in WrapperPaths(s) <==> p in order {
      if p in order { var k :| 0 <= k < |order| && order[k] == p; assert s[order[k]] == nodes[k]; }
      if p in s && s[p].Wrapper? { assert p !in stage; assert Listed(order, |order|, p); }
    }
  }

  lemma WrittenPaths(members: seq<Member>, stage: Stage, order: seq<Parts>, nodes: seq<Node>, s: Stage)
    requires StageOf(stage, members) && order == LinkOrder(members)
    requires |order| == |nodes| && Written(stage, s, order, nodes, |order|)
    ensures forall p :: p in s <==> Reached(members, p)
  {
    hide PartsOf;
    hide Total;
    hide SizeSum;
    hide LinkOrder;
    hide OnTheWay;
    forall p ensures p in s <==> Reached(members, p) {
      if OnSomeWay(order, |order|, p) {
        var j :| 0 <= j < |order| && OnTheWay(p, order[j]);
        assert order[j] in order;
        LinkOrderMembers(members, order[j]);
        var k :| 0 <= k < |members| && IsLink(members[k]) && PartsOf(members[k]) == order[j];
      } else if Reached(members, p) {
        var k :| 0 <= k < |members| && OnTheWay(p, PartsOf(members[k]));
        LinkOrderMembers(members, PartsOf(members[k]));
        assert !IsLink(members[k]);
        assert Occupies(members[k], p);
      }
    }
  }

  lemma WrittenFiles(members: seq<Member>, declared: Declared, stage: Stage, order: seq<Parts>, nodes: seq<Node>,
                     s: Stage, payloadBytes: string -> nat)
    requires StageOf(stage, members) && NodesFor(declared, order, payloadBytes, nodes)
             && Written(stage, s, order, nodes, |order|)
    ensures forall p :: StagedFile(s, p) <==> FilePath(members, p)
  {
    hide Join;
    hide Total;
    hide SizeSum;
    hide OnSomeWay;
    forall p ensures StagedFile(s, p) <==> FilePath(members, p) {
      StagedFileIsMember(stage, members, p);
    }
  }

  /** Extracted files stay as they were. */
  lemma WrittenKeepsFiles(stage: Stage, order: seq<Parts>, nodes: seq<Node>, s: Stage, p: Parts)
    requires |order| == |nodes| && Written(stage, s, order, nodes, |order|) && StagedFile(stage, p)
    ensures StagedFile(s, p) && s[p] == stage[p]
  {
    hide Total;
    hide SizeSum;
    hide OnSomeWay;
    hide Listed;
  }

  lemma WrittenWrapper(declared: Declared, stage: Stage, links: map<Parts, Parts>, order: seq<Parts>,
                       nodes: seq<Node>, s: Stage, payloadBytes: string -> nat, m: Member, k: nat)
    requires PayloadsFor(declared, stage, links, order) && NodesFor(declared, order, payloadBytes, nodes)
    requires Written(stage, s, order, nodes, |order|)
    requires IsLink(m) && LinkIn(links, m) && k < |order| && order[k] == PartsOf(m)
    ensures CheckedWrapper(declared, s, m)
  {
    hide PartsOf;
    hide Resolve;
    hide Join;
    hide Total;
    hide SizeSum;
    assert PayloadOk(declared, stage, order[k], links[order[k]]);
    WrittenKeepsFiles(stage, order, nodes, s, links[order[k]]);
    WrittenKeepsFiles(stage, order, nodes, s, NodeOf(order[k]));
    hide StagedFile;
    assert s[order[k]] == nodes[k];
  }

  lemma WrittenIsExtracted(members: seq<Member>, declared: Declared, stage: Stage, links: map<Parts, Parts>,
                           order: seq<Parts>, nodes: seq<Node>, s: Stage, payloadBytes: string -> nat)
    requires PassedSoFar(members, stage, links, order) && PayloadsFor(declared, stage, links, order)
    requires NodesFor(declared, order, payloadBytes, nodes)
             && SizeSum(nodes) == WrapperBytes(declared, order, payloadBytes)
    requires Written(stage, s, order, nodes, |order|)
    ensures Extracted(members, declared, s, payloadBytes)
  {
    hide PartsOf;
    hide Resolve;
    hide Join;
    hide LinkOrder;
    hide Total;
    hide SizeSum;
    hide RegularBytes;
    hide WrapperBytes;
    hide WrapperPaths;
    hide CheckedWrapper;
    hide StagedFile;
    hide Occupied;
    hide FilePath;
    hide OnSomeWay;
    hide Listed;
    assert nodes[..|nodes|] == nodes;
    forall k | 0 <= k < |order|
      ensures order[k] !in stage { assert PayloadOk(declared, stage, order[k], links[order[k]]); }
    WrittenWrappers(members, declared, stage, order, nodes, s, payloadBytes);
    WrittenPaths(members, stage, order, nodes, s);
    WrittenFiles(members, declared, stage, order, nodes, s, payloadBytes);
    hide Reached;
    forall k | 0 <= k < |members| ensures FileIn(s, members[k]) { assert FileIn(stage, members[k]); }
    forall i | 0 <= i < |members| && IsLink(members[i]) ensures CheckedWrapper(declared, s, members[i]) {
      LinkOrderMembers(members, PartsOf(members[i]));
      assert LinkIn(links, members[i]);
      var k :| 0 <= k < |order| && order[k] == PartsOf(members[i]);
      WrittenWrapper(declared, stage, links, order, nodes, s, payloadBytes, members[i], k);
    }
  }

  /**
   The whole extraction into an empty stage succeeds exactly for the extractable archives, and
   then leaves every regular member's file, exactly the declared links as wrappers with their
   checked target and interpreter, and all bytes within the ceiling.
   */
  method ExtractTar(members: seq<Member>, declared: Declared, allowed: set<string>, maxMembers: nat, maxBytes: nat,
                    payloadBytes: string -> nat)
    returns (r: Checked<Stage>)
    ensures r.Ok? <==> Extractable(members, declared, allowed, maxMembers, maxBytes, payloadBytes)
    ensures r.Ok? ==> Extracted(members, declared, r.value, payloadBytes) && Total(r.value) <= maxBytes
    ensures r.Ok? ==> WrapperPaths(r.value) == DeclaredPaths(declared)
  {
    hide Extractable;
    hide FirstPass;
    if Extractable(members, declared, allowed, maxMembers, maxBytes, payloadBytes) {
      ExtractableMeansFirstPass(members, declared, allowed, maxMembers, maxBytes, payloadBytes);
    }
    if |members| > maxMembers { return Raised; }
    var regularBytes := SumRegular(members);
    if regularBytes > maxBytes { return Raised; }
    var ok, stage, links, order := ExtractMembers(members, declared, allowed);
    if !ok { return Raised; }
    LinksAreNamed(members, declared, allowed, stage, links, order);
    PassesAreExtractable(members, declared, allowed, maxMembers, maxBytes, payloadBytes, stage, links, order);
    hide PassedSoFar;
    hide NodesFor;
    hide Written;
    hide PayloadsFor;
    ghost var nodes;
    r, nodes := MaterializeWrappers(declared, stage, links, order, regularBytes, maxBytes, payloadBytes);
    if r.Ok? { WrittenIsExtracted(members, declared, stage, links, order, nodes, r.value, payloadBytes); }
  }

  lemma LinksAreNamed(members: seq<Member>, declared: Declared, allowed: set<string>, stage: Stage,
                      links: map<Parts, Parts>, order: seq<Parts>)
    requires FirstPass(members, declared, allowed) && PassedSoFar(members, stage, links, order)
    ensures forall k | 0 <= k < |order| :: order[k] in links && order[k] != []
    ensures links.Keys == LinkPaths(members)
  {
    hide PartsOf;
    hide StageOf;
    hide LinkOrder;
    forall k | 0 <= k < |order| ensures order[k] in links && order[k] != [] {
      assert order[k] in order;
      LinkOrderMembers(members, order[k]);
      var i :| 0 <= i < |members| && IsLink(members[i]) && PartsOf(members[i]) == order[k];
      assert LinkIn(links, members[i]);
    }
  }
}
