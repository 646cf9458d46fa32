/**
 What a generated wrapper does when it is run.  The extraction checks two files for each link,
 `bin/node` of the link's top-level entry and the file its own link text resolves to.  The
 wrapper executes `node` in its own directory, on the text declared under its joined name.
 */
module TarRuntime {
  import opened Options
  import opened PathText
  import opened TarWrappers
  import opened TarExtraction

  /** `os.path.dirname(os.path.abspath(__file__))` of the wrapper at `p` of the stage at `root`. */
  function Here(root: Parts, p: Parts): string
    requires p != []
  {
    Absolute(root + p[..|p| - 1])
  }

  /** The executable that the wrapper starts. */
  function ExecutedNode(root: Parts, p: Parts): string
    requires p != []
  {
    PosixJoin(Here(root, p), "node")
  }

  /** The first argument it passes, for the text it embeds. */
  function ExecutedTarget(root: Parts, p: Parts, text: string): string
    requires p != []
  {
    NormPath(PosixJoin(Here(root, p), text))
  }

  lemma AbsoluteIsInjective(a: Parts, b: Parts)
    requires AllClean(a) && AllClean(b) && a != [] && b != []
    ensures Absolute(a) == Absolute(b) <==> a == b
  {
    hide Join;
    CleanPartsAreWhole(a);
    CleanPartsAreWhole(b);
    hide AllClean;
    if Absolute(a) == Absolute(b) {
      assert Absolute(a)[1..] == Join(a) && Absolute(b)[1..] == Join(b);
      SplitJoin(a);
      SplitJoin(b);
    }
  }

  /** The interpreter is `node` beside the link. */
  lemma NodeBesideTheLink(root: Parts, p: Parts)
    requires AllClean(root) && AllClean(p) && p != []
    ensures ExecutedNode(root, p) == Absolute(root + p[..|p| - 1] + ["node"])
  {
    var dir := root + p[..|p| - 1];
    if dir == [] {
      assert dir + ["node"] == ["node"];
    } else {
      PosixJoinBelow(dir, "node");
      JoinLast(dir, "node");
    }
  }

  /** It is the checked interpreter exactly for the links in `bin` of their top-level entry. */
  lemma ExecutedNodeIsChecked(root: Parts, p: Parts)
    requires AllClean(root) && AllClean(p) && p != []
    ensures ExecutedNode(root, p) == Absolute(root + NodeOf(p)) <==> p[..|p| - 1] == [p[0], "bin"]
  {
    var dir := p[..|p| - 1];
    var executed, checked := root + dir + ["node"], root + NodeOf(p);
    NodeBesideTheLink(root, p);
    AbsoluteIsInjective(executed, checked);
    if executed == checked {
      assert executed[|root|..] == dir + ["node"] && checked[|root|..] == NodeOf(p);
      assert (dir + ["node"])[..|dir|] == dir && NodeOf(p)[..2] == [p[0], "bin"];
    }
    if dir == [p[0], "bin"] { assert executed == checked; }
  }

  /** The components that an embedded text leads to, whether or not it would resolve; none for two leading slashes. */
  function LeadsTo(root: Parts, p: Parts, text: string): Option<Parts>
    requires p != []
  {
    if Relative(text) then Some(Normalized(root + p[..|p| - 1], Split(text)))
    else if DoubleSlash(text) then None
    else Some(Normalized([], Split(text)))
  }

  /** Every embedded text runs a given file exactly when its components lead there. */
  lemma ExecutedTargetExactly(root: Parts, p: Parts, text: string, file: Parts)
    requires AllClean(root) && AllClean(p) && p != [] && AllClean(file) && file != []
    ensures ExecutedTarget(root, p, text) == Absolute(root + file) <==> LeadsTo(root, p, text) == Some(root + file)
  {
    hide Normalized;
    hide NormPath;
    hide Split;
    hide Absolute;
    if Relative(text) {
      hide PosixJoin;
      NormPathBelowIs(root + p[..|p| - 1], text, root + file);
    } else {
      NormPathAbsoluteIs(text, root + file);
    }
  }

  /** An embedded text that resolves runs the checked file exactly when it resolves as the checked text does. */
  lemma ExecutedTargetIsChecked(root: Parts, p: Parts, embedded: string, reviewed: string)
    requires AllClean(root) && SafeParts(p) && Resolve(p, embedded).Ok? && Resolve(p, reviewed).Ok?
    ensures ExecutedTarget(root, p, embedded) == Absolute(root + Resolve(p, reviewed).value)
            <==> Resolve(p, embedded) == Resolve(p, reviewed)
  {
    var e, c := Resolve(p, embedded).value, Resolve(p, reviewed).value;
    ResolutionMeansTheWrapperPath(root, p, embedded);
    ResolutionMeansTheWrapperPath(root, p, reviewed);
    hide Resolve;
    AbsoluteIsInjective(root + e, root + c);
    if root + e == root + c { assert (root + e)[|root|..] == e && (root + c)[|root|..] == c; }
  }

  /** A finished extraction of an accepted archive. */
  ghost predicate Accepted(members: seq<Member>, declared: Declared, allowed: set<string>, maxMembers: nat,
                           maxBytes: nat, payloadBytes: string -> nat, stage: Stage)
  {
    && Extractable(members, declared, allowed, maxMembers, maxBytes, payloadBytes)
    && Extracted(members, declared, stage, payloadBytes)
  }

  lemma AcceptedLink(members: seq<Member>, declared: Declared, allowed: set<string>, maxMembers: nat, maxBytes: nat,
                     payloadBytes: string -> nat, stage: Stage, k: nat)
    requires Accepted(members, declared, allowed, maxMembers, maxBytes, payloadBytes, stage)
    requires k < |members| && IsLink(members[k])
    ensures MemberOk(members[k], declared, allowed) && CheckedWrapper(declared, stage, members[k])
  {
    hide MemberOk;
    hide CheckedWrapper;
  }

  /**
   For every link of every accepted archive: its wrapper embeds the link text that was reviewed
   exactly when the path is declared for that text under its joined name too.  Only a name
   spelled with a trailing slash can fail this.
   */
  lemma EmbeddedTargetIsReviewed(members: seq<Member>, declared: Declared, allowed: set<string>, maxMembers: nat,
                                 maxBytes: nat, payloadBytes: string -> nat, stage: Stage, k: nat)
    requires Accepted(members, declared, allowed, maxMembers, maxBytes, payloadBytes, stage)
    requires k < |members| && IsLink(members[k])
    ensures var m := members[k]; var p := PartsOf(m);
            && p in stage && stage[p].Wrapper? && m.name in declared && Join(p) in declared
            && (stage[p].target == m.linkName <==> declared[m.name] == declared[Join(p)])
            && (m.name == Join(p) || m.name == Join(p) + "/")
  {
    AcceptedLink(members, declared, allowed, maxMembers, maxBytes, payloadBytes, stage, k);
    SafeNamesAreClean(members[k].name);
    hide Join;
    hide Resolve;
    hide SafeMemberName;
  }

  /**
   A link in `bin` of its entry whose two declared texts agree runs exactly what was checked:
   the interpreter and the target it executes are regular files that the archive put there.
   */
  lemma WrapperExecutesTheCheckedFiles(root: Parts, members: seq<Member>, declared: Declared, allowed: set<string>,
                                       maxMembers: nat, maxBytes: nat, payloadBytes: string -> nat,
                                       stage: Stage, k: nat)
    requires Accepted(members, declared, allowed, maxMembers, maxBytes, payloadBytes, stage)
    requires k < |members| && IsLink(members[k]) && AllClean(root)
    ensures var m := members[k]; var p := PartsOf(m);
            && p != [] && p in stage && stage[p].Wrapper? && m.name in declared && Join(p) in declared
            && StagedFile(stage, NodeOf(p))
            && (ExecutedNode(root, p) == Absolute(root + NodeOf(p)) <==> p[..|p| - 1] == [p[0], "bin"])
            && Resolve(p, m.linkName).Ok? && StagedFile(stage, Resolve(p, m.linkName).value)
            && (declared[m.name] == declared[Join(p)] ==>
                  ExecutedTarget(root, p, stage[p].target) == Absolute(root + Resolve(p, m.linkName).value))
            && (ExecutedTarget(root, p, stage[p].target) == Absolute(root + Resolve(p, m.linkName).value)
                <==> LeadsTo(root, p, stage[p].target) == Some(root + Resolve(p, m.linkName).value))
  {
    var m := members[k];
    var p := PartsOf(m);
    AcceptedLink(members, declared, allowed, maxMembers, maxBytes, payloadBytes, stage, k);
    SafeNamesAreClean(m.name);
    hide Join;
    hide Resolve;
    hide SafeMemberName;
    hide StagedFile;
    hide ExecutedNode;
    hide ExecutedTarget;
    ExecutedNodeIsChecked(root, p);
    if stage[p].target == m.linkName { ExecutedTargetIsChecked(root, p, m.linkName, m.linkName); }
    hide LeadsTo;
    ResolutionMeansTheWrapperPath(root, p, m.linkName);
    ExecutedTargetExactly(root, p, stage[p].target, Resolve(p, m.linkName).value);
  }

  // ------------------------------------------------------- archives on which it fails

  lemma TrailingSlashReadsTheSame(parts: Parts)
    requires SafeParts(parts)
    ensures SafeMemberName(Join(parts) + "/") == Ok(parts)
  {
    var name := Join(parts) + "/";
    CleanJoinStartsPlain(parts);
    JoinKeepsAllowed(parts);
    assert name == Join(parts) + "/" + "";
    SplitConcat(Join(parts), "");
    SplitJoin(parts);
    assert Split(name) == parts + [""];
    assert (parts + [""])[..|parts|] == parts;
  }

  predicate SafeName(name: string) {
    Clean(name) && !HasForbidden(name)
  }

  /** A one-component target names a sibling of the link. */
  lemma SiblingTarget(link: Parts, name: string)
    requires |link| >= 2 && SafeName(name)
    ensures Resolve(link, name) == Ok(link[..|link| - 1] + [name])
  {
    SplitPlain(name);
    assert name[0] in name;
    var dir := link[..|link| - 1];
    assert Walk(dir, [name]) == Walk(dir + [name], [][..]);
  }

  function Regular(parts: Parts): Member {
    Member(Join(parts), RegularMember, 1, "", false)
  }

  lemma RegularIsOk(parts: Parts, declared: Declared)
    requires SafeParts(parts)
    ensures var m := Regular(parts); IsFile(m) && PartsOf(m) == parts && MemberOk(m, declared, {parts[0]})
  {
    hide SafeMemberName;
    hide Join;
    SafeNameRoundTrip(parts);
  }

  lemma OneWrapperBytes(declared: Declared, link: Parts, payloadBytes: string -> nat)
    requires Join(link) in declared
    ensures WrapperBytes(declared, [link], payloadBytes) == payloadBytes(declared[Join(link)])
  {
    hide Join;
    assert [link][..0] == [];
  }

  lemma OneLinkOk(files: seq<Member>, link: Member, declared: Declared)
    requires IsLink(link) && LinkOk(files, declared, link) && forall k | 0 <= k < |files| :: IsFile(files[k])
    ensures AllLinksOk(files + [link], declared)
  {
    hide PartsOf;
    hide Resolve;
    hide Join;
    var members := files + [link];
    forall k | 0 <= k < |members| ensures LinkOk(members, declared, members[k]) {
      if k == |files| {
        OccupiedAppend(files, link, Resolve(PartsOf(link), link.linkName).value);
        OccupiedAppend(files, link, NodeOf(PartsOf(link)));
      }
    }
  }

  lemma LinkOkDeclared(members: seq<Member>, declared: Declared, m: Member)
    requires IsLink(m) && LinkOk(members, declared, m)
    ensures Join(PartsOf(m)) in declared
  {
  }

  /** Regular members that do not nest, then one link to a file among them. */
  lemma OneLinkArchive(files: seq<Member>, link: Member, declared: Declared, allowed: set<string>,
                       payloadBytes: string -> nat)
    requires IsLink(link) && MemberOk(link, declared, allowed) && LinkOk(files, declared, link)
    requires forall k | 0 <= k < |files| :: IsFile(files[k]) && MemberOk(files[k], declared, allowed)
    requires AllApart(files + [link]) && DeclaredExactly(declared, {PartsOf(link)})
    ensures Join(PartsOf(link)) in declared
    ensures Extractable(files + [link], declared, allowed, |files| + 1,
                        RegularBytes(files) + payloadBytes(declared[Join(PartsOf(link))]), payloadBytes)
  {
    hide *;
    var members, limit := files + [link], |files| + 1;
    LinkOkDeclared(files, declared, link);
    var bytes := RegularBytes(files) + payloadBytes(declared[Join(PartsOf(link))]);
    OneLink(files, link);
    OneLinkBytes(files, link);
    OneWrapperBytes(declared, PartsOf(link), payloadBytes);
    OneLinkOk(files, link, declared);
    forall k | 0 <= k < |members| ensures MemberOk(members[k], declared, allowed) { }
    ExtractableParts(members, declared, allowed, limit, bytes, payloadBytes);
  }

  lemma {:induction false} UnitBytes(files: seq<Member>)
    requires forall k | 0 <= k < |files| :: IsFile(files[k]) && files[k].size == 1
    ensures RegularBytes(files) == |files|
  {
    if files != [] { UnitBytes(files[..|files| - 1]); }
  }

  lemma OneLinkBytes(files: seq<Member>, link: Member)
    requires IsLink(link)
    ensures RegularBytes(files + [link]) == RegularBytes(files)
  {
    RegularBytesGrow(files, link);
  }

  lemma {:induction false} OneLink(files: seq<Member>, link: Member)
    requires IsLink(link) && forall k | 0 <= k < |files| :: IsFile(files[k])
    ensures LinkOrder(files) == [] && LinkOrder(files + [link]) == [PartsOf(link)]
    ensures LinkPaths(files + [link]) == {PartsOf(link)}
  {
    hide PartsOf;
    LinkOrderGrows(files, link);
    if files != [] {
      var front, last := files[..|files| - 1], files[|files| - 1];
      OneLink(front, link);
      assert files == front + [last];
      LinkOrderGrows(front, last);
    }
  }

  function Files(paths: seq<Parts>): seq<Member> {
    seq(|paths|, k requires 0 <= k < |paths| => Regular(paths[k]))
  }

  function Symlink(name: string, target: string): Member {
    Member(name, SymbolicLink, 0, target, false)
  }

  /** Unit files at these paths under one top-level entry, none inside another or the link. */
  predicate Spread(paths: seq<Parts>, p: Parts) {
    && SafeParts(p)
    && (forall k | 0 <= k < |paths| :: SafeParts(paths[k]) && paths[k][0] == p[0] && Unnested(paths[k], p))
    && (forall i, j | 0 <= i < j < |paths| :: Unnested(paths[i], paths[j]))
  }

  /** The declaration spells only this path, in any of its spellings. */
  ghost predicate DeclaresOnly(declared: Declared, p: Parts) {
    Join(p) in declared && forall d | d in declared :: SafeMemberName(d) == Ok(p)
  }

  lemma FilesAreOk(paths: seq<Parts>, p: Parts, declared: Declared)
    requires Spread(paths, p)
    ensures forall k | 0 <= k < |paths| ::
              var m := Files(paths)[k]; PartsOf(m) == paths[k] && MemberOk(m, declared, {p[0]})
  {
    forall k | 0 <= k < |paths|
      ensures var m := Files(paths)[k]; PartsOf(m) == paths[k] && MemberOk(m, declared, {p[0]})
    {
      RegularIsOk(paths[k], declared);
    }
  }

  lemma SpreadIsApart(paths: seq<Parts>, p: Parts, link: Member)
    requires Spread(paths, p) && PartsOf(link) == p
    requires forall k | 0 <= k < |paths| :: PartsOf(Files(paths)[k]) == paths[k]
    ensures AllApart(Files(paths) + [link])
  {
    hide PartsOf;
    hide SafeParts;
    hide Unnested;
    var members := Files(paths) + [link];
    forall i, j | 0 <= i < j < |members| ensures Apart(members[i], members[j]) {
      UnnestedIsApart(members[i], members[j]);
    }
  }

  lemma UnnestedIsApart(a: Member, b: Member)
    ensures Unnested(PartsOf(a), PartsOf(b)) ==> Apart(a, b)
  {
  }

  lemma OneDeclared(declared: Declared, p: Parts)
    requires DeclaresOnly(declared, p)
    ensures DeclaredExactly(declared, {p})
  {
    hide SafeMemberName;
    hide Join;
    assert SafeMemberName(Join(p)).value in DeclaredPaths(declared);
  }

  lemma SpreadLinkIsOk(paths: seq<Parts>, p: Parts, link: Member, declared: Declared)
    requires IsLink(link) && PartsOf(link) == p != [] && Join(p) in declared
    requires Resolve(p, link.linkName).Ok? && Resolve(p, link.linkName).value in paths && NodeOf(p) in paths
    requires forall k | 0 <= k < |paths| :: PartsOf(Files(paths)[k]) == paths[k]
    ensures LinkOk(Files(paths), declared, link)
  {
    hide PartsOf;
    hide Resolve;
    hide Join;
    forall q | q in paths ensures FilePath(Files(paths), q) {
      var k :| 0 <= k < |paths| && paths[k] == q;
      assert IsFile(Files(paths)[k]);
    }
  }

  lemma LinkIsOk(p: Parts, link: Member, declared: Declared)
    requires p != [] && DeclaresOnly(declared, p) && IsLink(link)
    requires link.name in declared && declared[link.name] == link.linkName && Resolve(p, link.linkName).Ok?
    ensures PartsOf(link) == p && Join(p) in declared && MemberOk(link, declared, {p[0]})
  {
    hide SafeMemberName;
    hide Resolve;
    hide Join;
  }

  lemma FilesAreUnits(paths: seq<Parts>)
    ensures |Files(paths)| == |paths|
    ensures forall k | 0 <= k < |paths| :: IsFile(Files(paths)[k]) && Files(paths)[k].size == 1
  {
  }

  lemma DifferAt(a: Parts, b: Parts, k: nat)
    requires k < |a| && k < |b| && a[k] != b[k]
    ensures Unnested(a, b) && !(a <= b) && !(b <= a)
  {
  }

  /** An archive of unit files and one declared link to one of them is accepted, with room for exactly its bytes. */
  lemma SpreadIsExtractable(paths: seq<Parts>, p: Parts, link: Member, declared: Declared, payloadBytes: string -> nat)
    requires Spread(paths, p) && DeclaresOnly(declared, p) && IsLink(link)
    requires link.name in declared && declared[link.name] == link.linkName
    requires p != [] && Resolve(p, link.linkName).Ok? && Resolve(p, link.linkName).value in paths && NodeOf(p) in paths
    ensures PartsOf(link) == p && |Files(paths)| == |paths|
    ensures forall k | 0 <= k < |paths| :: PartsOf(Files(paths)[k]) == paths[k]
    ensures Join(p) in declared
    ensures Extractable(Files(paths) + [link], declared, {p[0]}, |paths| + 1,
                        |paths| + payloadBytes(declared[Join(p)]), payloadBytes)
  {
    hide *;
    assert |Files(paths)| == |paths| by { FilesAreUnits(paths); }
    FilesAreOk(paths, p, declared);
    LinkIsOk(p, link, declared);
    SpreadIsApart(paths, p, link);
    SpreadLinkIsOk(paths, p, link, declared);
    OneDeclared(declared, p);
    FilesAreUnits(paths);
    UnitBytes(Files(paths));
    OneLinkArchive(Files(paths), link, declared, {p[0]}, payloadBytes);
  }

  lemma LinkWasWritten(files: seq<Member>, link: Member, declared: Declared, stage: Stage, payloadBytes: string -> nat)
    requires link.kind.SymbolicLink? && Extracted(files + [link], declared, stage, payloadBytes)
    ensures CheckedWrapper(declared, stage, link)
    ensures PartsOf(link) in stage && Join(PartsOf(link)) in declared
    ensures stage[PartsOf(link)].Wrapper? && stage[PartsOf(link)].target == declared[Join(PartsOf(link))]
  {
    hide PartsOf;
    hide Join;
    hide Resolve;
    assert (files + [link])[|files|] == link;
  }

  lemma NotReached(paths: seq<Parts>, link: Member, declared: Declared, stage: Stage, payloadBytes: string -> nat,
                   q: Parts)
    requires Extracted(Files(paths) + [link], declared, stage, payloadBytes) && !(q <= PartsOf(link))
    requires forall k | 0 <= k < |paths| :: PartsOf(Files(paths)[k]) == paths[k] && !(q <= paths[k])
    ensures q !in stage
  {
    hide PartsOf;
    hide CheckedWrapper;
    var members := Files(paths) + [link];
    forall k | 0 <= k < |members| ensures !(q <= PartsOf(members[k])) { }
  }

  /** The interpreter, a file, and a link to it in its own directory. */
  lemma OutsideBin(t: string, dir: string, x: string, y: string)
    requires SafeName(t) && SafeName(dir) && SafeName(x) && SafeName(y) && dir != "bin" && x != y
    ensures Spread([[t, "bin", "node"], [t, dir, y]], [t, dir, x]) && Resolve([t, dir, x], y) == Ok([t, dir, y])
    ensures DeclaresOnly(map[Join([t, dir, x]) := y], [t, dir, x])
    ensures NodeOf([t, dir, x]) == [t, "bin", "node"]
  {
    hide SafeMemberName;
    hide Resolve;
    var p: Parts := [t, dir, x];
    SafeNameRoundTrip(p);
    hide Join;
    SiblingTarget(p, y);
    assert p[..2] + [y] == [t, dir, y];
    DifferAt([t, "bin", "node"], p, 1);
    DifferAt([t, dir, y], p, 2);
    DifferAt([t, "bin", "node"], [t, dir, y], 1);
    hide Unnested;
  }

  /**
   Runs of the extraction that accept a link outside `bin`: wherever the stage is, the
   interpreter that its wrapper executes is no path of the stage.
   */
  method LinkOutsideBinHasNoInterpreter(t: string, dir: string, x: string, y: string, payloadBytes: string -> nat)
    returns (r: Checked<Stage>)
    requires SafeName(t) && SafeName(dir) && SafeName(x) && SafeName(y)
    requires dir != "bin" && x != y && x != "node" && y != "node"
    ensures r.Ok? && [t, dir, x] in r.value && r.value[[t, dir, x]].Wrapper?
    ensures [t, dir, "node"] !in r.value
    ensures forall root: Parts | AllClean(root) :: ExecutedNode(root, [t, dir, x]) == Absolute(root + [t, dir, "node"])
  {
    hide *;
    var p: Parts := [t, dir, x];
    var paths: seq<Parts>, link := [[t, "bin", "node"], [t, dir, y]], Symlink(Join(p), y);
    var declared: Declared := map[Join(p) := y];
    OutsideBin(t, dir, x, y);
    SymlinkIsLink(Join(p), y);
    SpreadIsExtractable(paths, p, link, declared, payloadBytes);
    r := ExtractTar(Files(paths) + [link], declared, {t}, 3, 2 + payloadBytes(y), payloadBytes);
    LinkWasWritten(Files(paths), link, declared, r.value, payloadBytes);
    DifferAt([t, dir, "node"], [t, "bin", "node"], 1);
    DifferAt([t, dir, "node"], [t, dir, y], 2);
    DifferAt([t, dir, "node"], p, 2);
    NotReached(paths, link, declared, r.value, payloadBytes, [t, dir, "node"]);
    forall root: Parts | AllClean(root) ensures ExecutedNode(root, p) == Absolute(root + [t, dir, "node"]) {
      SiblingNode(root, t, dir, x);
    }
  }

  lemma SymlinkIsLink(name: string, target: string)
    ensures var m := Symlink(name, target); IsLink(m) && m.kind.SymbolicLink? && m.name == name && m.linkName == target
  {
  }

  lemma SiblingNode(root: Parts, t: string, dir: string, x: string)
    requires AllClean(root) && SafeName(t) && SafeName(dir) && SafeName(x)
    ensures ExecutedNode(root, [t, dir, x]) == Absolute(root + [t, dir, "node"])
  {
    NodeBesideTheLink(root, [t, dir, x]);
    assert root + [t, dir, x][..2] + ["node"] == root + [t, dir, "node"];
  }

  /** The interpreter, two files, and a link beside them that is declared in both spellings. */
  lemma BothSpellings(t: string, b: string, c: string, d: string)
    requires SafeName(t) && SafeName(b) && SafeName(c) && SafeName(d)
    requires b != "bin" && c != "bin" && d != "bin" && b != c && b != d && c != d
    ensures Spread([[t, "bin", "node"], [t, c], [t, d]], [t, b])
    ensures Resolve([t, b], c) == Ok([t, c]) && Resolve([t, b], d) == Ok([t, d])
    ensures DeclaresOnly(map[Join([t, b]) := d, Join([t, b]) + "/" := c], [t, b])
    ensures NodeOf([t, b]) == [t, "bin", "node"]
  {
    hide SafeMemberName;
    hide Resolve;
    var p: Parts := [t, b];
    SafeNameRoundTrip(p);
    TrailingSlashReadsTheSame(p);
    hide Join;
    SiblingTarget(p, c);
    SiblingTarget(p, d);
    assert p[..1] + [c] == [t, c] && p[..1] + [d] == [t, d];
    DifferAt([t, "bin", "node"], p, 1);
    DifferAt([t, c], p, 1);
    DifferAt([t, d], p, 1);
    DifferAt([t, "bin", "node"], [t, c], 1);
    DifferAt([t, "bin", "node"], [t, d], 1);
    DifferAt([t, c], [t, d], 1);
    hide Unnested;
  }

  /**
   Runs of the extraction that accept a link spelled with a trailing slash and declared in both
   spellings: its text `c` is reviewed and checked, and wherever the stage is the wrapper runs `d`.
   */
  method AmbiguousDeclarationRunsAnotherFile(t: string, b: string, c: string, d: string, payloadBytes: string -> nat)
    returns (r: Checked<Stage>, link: Member)
    requires SafeName(t) && SafeName(b) && SafeName(c) && SafeName(d)
    requires b != "bin" && c != "bin" && d != "bin" && b != c && b != d && c != d
    ensures r.Ok? && link == Symlink(Join([t, b]) + "/", c) && PartsOf(link) == [t, b]
            && Resolve([t, b], c) == Ok([t, c])
    ensures [t, b] in r.value && r.value[[t, b]].Wrapper?
    ensures forall root: Parts | AllClean(root) ::
              ExecutedTarget(root, [t, b], r.value[[t, b]].target) == Absolute(root + [t, d]) != Absolute(root + [t, c])
  {
    hide *;
    var p: Parts := [t, b];
    var name := Join(p) + "/";
    var paths: seq<Parts> := [[t, "bin", "node"], [t, c], [t, d]];
    var declared: Declared := map[Join(p) := d, name := c];
    link := Symlink(name, c);
    BothSpellings(t, b, c, d);
    SymlinkIsLink(name, c);
    SpreadIsExtractable(paths, p, link, declared, payloadBytes);
    r := ExtractTar(Files(paths) + [link], declared, {t}, 4, 3 + payloadBytes(d), payloadBytes);
    LinkWasWritten(Files(paths), link, declared, r.value, payloadBytes);
    assert |name| == |Join(p)| + 1;
    forall root: Parts | AllClean(root)
      ensures ExecutedTarget(root, p, d) == Absolute(root + [t, d]) != Absolute(root + [t, c])
    {
      SiblingsDiffer(root, t, b, c, d);
    }
  }

  lemma SiblingsDiffer(root: Parts, t: string, b: string, c: string, d: string)
    requires AllClean(root) && SafeName(t) && SafeName(b) && SafeName(c) && SafeName(d) && c != d
    requires Resolve([t, b], c) == Ok([t, c]) && Resolve([t, b], d) == Ok([t, d])
    ensures ExecutedTarget(root, [t, b], d) == Absolute(root + [t, d]) != Absolute(root + [t, c])
  {
    hide Resolve;
    hide ExecutedTarget;
    hide Absolute;
    ExecutedTargetIsChecked(root, [t, b], d, d);
    ExecutedTargetIsChecked(root, [t, b], d, c);
  }
}
