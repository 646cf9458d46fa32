/**
 Archive member names and link targets: a name is split into safe components, and the target of a
 symbolic link is resolved by a path stack that never leaves the link's top-level entry.
 */
module TarWrappers {
  import opened Options
  import opened PathText

  type Parts = seq<string>

  const NUL: char := '\0'

  // -------------------------------------------------------------- member names

  predicate HasForbidden(text: string) {
    '\\' in text || NUL in text
  }

  predicate HasTraversal(parts: Parts) {
    exists k | 0 <= k < |parts| :: parts[k] == "." || parts[k] == ".."
  }

  function SafeMemberName(name: string): Checked<Parts> {
    var components := Split(name);
    var last := |components| - 1;
    if name == "" || name[0] == '/' || HasForbidden(name) then Raised
    else if exists k | 0 <= k < last :: components[k] == "" then Raised
    else
      var parts := if components[last] == "" then components[..last] else components;
      if parts == [] || HasTraversal(parts) then Raised
      else Ok(parts)
  }

  predicate SafeParts(parts: Parts) {
    parts != [] && AllClean(parts) && forall k | 0 <= k < |parts| :: !HasForbidden(parts[k])
  }

  /** Accepted names are lists of clean components, written with or without one trailing slash. */
  lemma SafeNamesAreClean(name: string)
    requires SafeMemberName(name).Ok?
    ensures var parts := SafeMemberName(name).value;
            SafeParts(parts) && (name == Join(parts) || name == Join(parts) + "/")
  {
    hide Split;
    hide Join;
    var components, parts := Split(name), SafeMemberName(name).value;
    var last := |components| - 1;
    forall k | 0 <= k < |parts| ensures Clean(parts[k]) && !HasForbidden(parts[k]) {
      assert parts[k] == components[k];
      SplitHasNoSlash(name, k);
      assert components[k] != "" && parts[k] != "." && parts[k] != "..";
    }
    JoinSplit(name);
    if components[last] == "" {
      assert components == parts + [""] && parts != [];
      JoinLast(parts, "");
    }
  }

  /** Every list of safe components is the reading of its joined name. */
  lemma SafeNameRoundTrip(parts: Parts)
    requires SafeParts(parts)
    ensures SafeMemberName(Join(parts)) == Ok(parts)
  {
    SplitJoin(parts);
    CleanJoinStartsPlain(parts);
    JoinKeepsAllowed(parts);
    assert parts[|parts| - 1] != "";
  }

  lemma {:induction false} JoinKeepsAllowed(parts: Parts)
    requires forall k | 0 <= k < |parts| :: !HasForbidden(parts[k])
    ensures !HasForbidden(Join(parts))
  {
    if |parts| > 1 { JoinKeepsAllowed(parts[1..]); }
  }

  // ---------------------------------------------------------- resolving a target

  /** The stack walk over the target's components; the top-level entry is never popped. */
  function Walk(stack: Parts, components: Parts): Checked<Parts>
    decreases |components|
  {
    if components == [] then Ok(stack)
    else if components[0] == ".." then
      if |stack| <= 1 then Raised else Walk(stack[..|stack| - 1], components[1..])
    else Walk(stack + [components[0]], components[1..])
  }

  function Resolve(link: Parts, target: string): Checked<Parts>
    requires link != []
  {
    if target == "" || target[0] == '/' || HasForbidden(target) then Raised
    else if exists k | 0 <= k < |Split(target)| :: Split(target)[k] == "" || Split(target)[k] == "." then Raised
    else
      match Walk(link[..|link| - 1], Split(target))
      case Ok(resolved) => if resolved == [] || resolved[0] != link[0] then Raised else Ok(resolved)
      case Raised => Raised
  }

  method ResolveWrapperTarget(link: Parts, target: string) returns (r: Checked<Parts>)
    requires link != []
    ensures r == Resolve(link, target)
  {
    if target == "" || target[0] == '/' || HasForbidden(target) { return Raised; }
    var components := Split(target);
    if exists k | 0 <= k < |components| :: components[k] == "" || components[k] == "." { return Raised; }
    var resolved := link[..|link| - 1];
    var i := 0;
    while i < |components|
      invariant i <= |components|
      invariant Walk(resolved, components[i..]) == Walk(link[..|link| - 1], components)
    {
      assert components[i..][1..] == components[i + 1..];
      if components[i] == ".." {
        if |resolved| <= 1 { return Raised; }
        resolved := resolved[..|resolved| - 1];
      } else {
        resolved := resolved + [components[i]];
      }
      i := i + 1;
    }
    if resolved == [] || resolved[0] != link[0] { return Raised; }
    return Ok(resolved);
  }

  /** A successful walk stays clean and agrees with `normpath` below any clean directory. */
  lemma {:induction false} WalkIsNormalization(base: Parts, stack: Parts, components: Parts)
    requires AllClean(base) && AllClean(stack) && Walk(stack, components).Ok?
    requires forall k | 0 <= k < |components| :: Plain(components[k]) && components[k] != "."
    ensures AllClean(Walk(stack, components).value)
    ensures Normalized(base + stack, components) == base + Walk(stack, components).value
    decreases |components|
  {
    if components != [] {
      var c, rest, whole := components[0], components[1..], base + stack;
      assert Plain(c);
      if c == ".." {
        assert whole != [] && Clean(stack[|stack| - 1]) && whole[|whole| - 1] == stack[|stack| - 1];
        assert whole[..|whole| - 1] == base + stack[..|stack| - 1];
        WalkIsNormalization(base, stack[..|stack| - 1], rest);
      } else {
        assert whole + [c] == base + (stack + [c]);
        WalkIsNormalization(base, stack + [c], rest);
      }
    }
  }

  /** The depth reached by a walk: one down for every name, one up for every `..`. */
  function Depth(start: int, components: Parts): int {
    if components == [] then start
    else Depth(start, components[..|components| - 1]) + if components[|components| - 1] == ".." then -1 else 1
  }

  /** Every `..` is met at least two levels deep, so the top-level entry is never left. */
  ghost predicate StaysInside(start: int, components: Parts) {
    forall j | 0 <= j < |components| && components[j] == ".." :: Depth(start, components[..j]) >= 2
  }

  lemma {:induction false} DepthShift(start: int, components: Parts)
    requires components != []
    ensures Depth(start, components) == Depth(start + (if components[0] == ".." then -1 else 1), components[1..])
  {
    var n := |components|;
    if n == 1 {
      assert components[..0] == [] && components[1..] == [];
    } else {
      DepthShift(start, components[..n - 1]);
      assert components[..n - 1][1..] == components[1..][..n - 2];
      assert components[1..][n - 2] == components[n - 1];
    }
  }

  lemma StaysInsideStep(start: int, components: Parts)
    requires components != []
    ensures StaysInside(start, components) <==>
            && (components[0] == ".." ==> start >= 2)
            && StaysInside(start + (if components[0] == ".." then -1 else 1), components[1..])
  {
    var next, rest := start + (if components[0] == ".." then -1 else 1), components[1..];
    forall j | 0 <= j < |rest|
      ensures rest[j] == components[j + 1] && Depth(next, rest[..j]) == Depth(start, components[..j + 1]) {
      DepthShift(start, components[..j + 1]);
      assert components[..j + 1][1..] == rest[..j];
    }
    assert components[..0] == [];
    if StaysInside(start, components) {
      forall j | 0 <= j < |rest| && rest[j] == ".." ensures Depth(next, rest[..j]) >= 2 {
        assert components[j + 1] == "..";
      }
    } else {
      var j :| 0 <= j < |components| && components[j] == ".." && Depth(start, components[..j]) < 2;
      if j > 0 { assert rest[j - 1] == ".." && Depth(next, rest[..j - 1]) < 2; }
    }
  }

  /** The stack walk succeeds exactly when the target stays inside the top-level entry, and ends at its depth. */
  lemma {:induction false} WalkAcceptsExactly(stack: Parts, components: Parts)
    ensures Walk(stack, components).Ok? <==> StaysInside(|stack|, components)
    ensures Walk(stack, components).Ok? ==> |Walk(stack, components).value| == Depth(|stack|, components)
    decreases |components|
  {
    if components != [] {
      StaysInsideStep(|stack|, components);
      DepthShift(|stack|, components);
      hide StaysInside;
      if components[0] == ".." {
        if |stack| >= 2 { WalkAcceptsExactly(stack[..|stack| - 1], components[1..]); }
      } else {
        WalkAcceptsExactly(stack + [components[0]], components[1..]);
      }
    }
  }

  lemma {:induction false} WalkKeepsTop(stack: Parts, components: Parts)
    requires stack != [] && Walk(stack, components).Ok?
    ensures Walk(stack, components).value != [] && Walk(stack, components).value[0] == stack[0]
    decreases |components|
  {
    if components != [] {
      if components[0] == ".." {
        WalkKeepsTop(stack[..|stack| - 1], components[1..]);
      } else {
        WalkKeepsTop(stack + [components[0]], components[1..]);
      }
    }
  }

  /** A relative target made of names and `..`. */
  predicate WellFormedTarget(target: string) {
    && target != "" && target[0] != '/' && !HasForbidden(target)
    && forall k | 0 <= k < |Split(target)| :: Split(target)[k] != "" && Split(target)[k] != "."
  }

  /** A link below its top-level entry is accepted exactly for well-formed targets that stay inside that entry. */
  lemma ResolveAcceptsExactly(link: Parts, target: string)
    requires |link| >= 2
    ensures Resolve(link, target).Ok? <==> WellFormedTarget(target) && StaysInside(|link| - 1, Split(target))
  {
    hide Split;
    var dir := link[..|link| - 1];
    if WellFormedTarget(target) {
      WalkAcceptsExactly(dir, Split(target));
      if Walk(dir, Split(target)).Ok? { WalkKeepsTop(dir, Split(target)); }
    }
    hide StaysInside;
  }

  /**
   Every accepted target resolves to clean components under the link's own top-level entry,
   and they name the very path the generated wrapper computes at run time, wherever the stage
   directory is: `normpath(join(dirname(wrapper), target))`.
   */
  lemma ResolutionMeansTheWrapperPath(stage: Parts, link: Parts, target: string)
    requires AllClean(stage) && SafeParts(link) && Resolve(link, target).Ok?
    ensures var resolved := Resolve(link, target).value;
            && AllClean(resolved) && resolved != [] && resolved[0] == link[0]
            && NormPath(PosixJoin(Absolute(stage + link[..|link| - 1]), target)) == Absolute(stage + resolved)
  {
    var dir, components := link[..|link| - 1], Split(target);
    forall k | 0 <= k < |components| ensures Plain(components[k]) && components[k] != "." {
      SplitHasNoSlash(target, k);
    }
    WalkIsNormalization(stage, dir, components);
    NormPathBelow(stage + dir, target);
  }
}
