/** Slash-separated path text: splitting, joining, and Python's `posixpath` join and normpath. */
module PathText {

  predicate Plain(part: string) {
    part != "" && '/' !in part
  }

  /** A component that names one directory entry. */
  predicate Clean(part: string) {
    Plain(part) && part != "." && part != ".."
  }

  predicate AllClean(parts: seq<string>) {
    forall k | 0 <= k < |parts| :: Clean(parts[k])
  }

  /** `text.split("/")`. */
  function Split(text: string): (parts: seq<string>)
    ensures |parts| > 0
  {
    if text == "" then [""]
    else
      var rest := Split(text[1..]);
      if text[0] == '/' then [""] + rest else [[text[0]] + rest[0]] + rest[1..]
  }

  /** `"/".join(parts)`. */
  function Join(parts: seq<string>): string {
    if parts == [] then ""
    else if |parts| == 1 then parts[0]
    else parts[0] + "/" + Join(parts[1..])
  }

  lemma {:induction false} SplitPlain(part: string)
    requires '/' !in part
    ensures Split(part) == [part]
  {
    if part != "" {
      SplitPlain(part[1..]);
      assert [part[0]] + part[1..] == part;
    }
  }

  lemma {:induction false} SplitConcat(a: string, b: string)
    ensures Split(a + "/" + b) == Split(a) + Split(b)
  {
    var whole := a + "/" + b;
    if a == "" {
      assert whole[1..] == b;
    } else {
      assert whole[1..] == a[1..] + "/" + b && whole[0] == a[0];
      SplitConcat(a[1..], b);
    }
  }

  lemma {:induction false} SplitHasNoSlash(text: string, k: nat)
    requires k < |Split(text)|
    ensures '/' !in Split(text)[k]
    ensures forall c | c in Split(text)[k] :: c in text
  {
    if text != "" {
      var rest := Split(text[1..]);
      if text[0] == '/' {
        if k > 0 { SplitHasNoSlash(text[1..], k - 1); }
      } else {
        SplitHasNoSlash(text[1..], k);
        assert Split(text)[k] == if k == 0 then [text[0]] + rest[0] else rest[k];
      }
    }
  }

  lemma {:induction false} JoinSplit(text: string)
    ensures Join(Split(text)) == text
  {
    if text != "" {
      var rest := Split(text[1..]);
      JoinSplit(text[1..]);
      if text[0] == '/' {
        assert ([""] + rest)[1..] == rest;
        assert text == "/" + text[1..];
      } else {
        var parts := [[text[0]] + rest[0]] + rest[1..];
        assert parts[1..] == rest[1..];
        assert text == [text[0]] + text[1..];
      }
    }
  }

  lemma {:induction false} SplitJoin(parts: seq<string>)
    requires parts != [] && forall k | 0 <= k < |parts| :: '/' !in parts[k]
    ensures Split(Join(parts)) == parts
  {
    SplitPlain(parts[0]);
    if |parts| > 1 {
      SplitJoin(parts[1..]);
      SplitConcat(parts[0], Join(parts[1..]));
      assert [parts[0]] + parts[1..] == parts;
    }
  }

  lemma {:induction false} JoinLast(parts: seq<string>, last: string)
    requires parts != []
    ensures Join(parts + [last]) == Join(parts) + "/" + last
  {
    if |parts| == 1 {
      assert (parts + [last])[1..] == [last];
    } else {
      assert (parts + [last])[1..] == parts[1..] + [last];
      JoinLast(parts[1..], last);
      assert parts[0] + "/" + (Join(parts[1..]) + "/" + last) == parts[0] + "/" + Join(parts[1..]) + "/" + last;
    }
  }

  // ------------------------------------------------------------------ posixpath

  /** `os.path.join(a, b)`. */
  function PosixJoin(a: string, b: string): string {
    if b != "" && b[0] == '/' then b
    else if a == "" || a[|a| - 1] == '/' then a + b
    else a + "/" + b
  }

  /** The component loop of `os.path.normpath` on an absolute path: `..` at the root stays there. */
  function Normalized(stack: seq<string>, components: seq<string>): seq<string>
    decreases |components|
  {
    if components == [] then stack
    else
      var c, rest := components[0], components[1..];
      if c == "" || c == "." then Normalized(stack, rest)
      else if c != ".." then Normalized(stack + [c], rest)
      else Normalized(if stack == [] then [] else stack[..|stack| - 1], rest)
  }

  predicate Relative(target: string) {
    target == "" || target[0] != '/'
  }

  /** Exactly two leading slashes, which `normpath` keeps. */
  predicate DoubleSlash(path: string) {
    |path| >= 2 && path[0] == path[1] == '/' && !(|path| >= 3 && path[2] == '/')
  }

  /** `os.path.normpath` of an absolute path, with POSIX's special case for exactly two leading slashes. */
  function NormPath(path: string): string
    requires !Relative(path)
  {
    (if DoubleSlash(path) then "//" else "/") + Join(Normalized([], Split(path)))
  }

  /** The absolute path of a list of clean components. */
  function Absolute(parts: seq<string>): string {
    "/" + Join(parts)
  }

  lemma {:induction false} NormalizedPushes(stack: seq<string>, parts: seq<string>, rest: seq<string>)
    requires AllClean(parts)
    ensures Normalized(stack, parts + rest) == Normalized(stack + parts, rest)
    decreases |parts|
  {
    if parts == [] {
      assert parts + rest == rest && stack + parts == stack;
    } else {
      assert Clean(parts[0]);
      assert (parts + rest)[1..] == parts[1..] + rest;
      NormalizedPushes(stack + [parts[0]], parts[1..], rest);
      assert stack + [parts[0]] + parts[1..] == stack + parts;
    }
  }

  lemma {:induction false} CleanJoinStartsPlain(parts: seq<string>)
    requires parts != [] && Plain(parts[0])
    ensures Join(parts) != "" && Join(parts)[0] != '/'
  {
    assert parts[0][0] in parts[0];
  }

  lemma {:induction false} CleanJoinEndsPlain(parts: seq<string>)
    requires parts != [] && forall k | 0 <= k < |parts| :: Plain(parts[k])
    ensures Join(parts) != "" && Join(parts)[|Join(parts)| - 1] != '/'
  {
    if |parts| == 1 {
      assert parts[0][|parts[0]| - 1] in parts[0];
    } else {
      CleanJoinEndsPlain(parts[1..]);
    }
  }

  lemma SplitBelowRoot(target: string)
    ensures Split("/" + target) == [""] + Split(target)
  {
    assert ("/" + target)[1..] == target;
  }

  lemma CleanPartsAreWhole(parts: seq<string>)
    requires AllClean(parts)
    ensures forall k | 0 <= k < |parts| :: '/' !in parts[k]
  {
  }

  lemma PosixJoinBelow(dir: seq<string>, target: string)
    requires dir != [] && AllClean(dir) && Relative(target)
    ensures PosixJoin(Absolute(dir), target) == "/" + (Join(dir) + "/" + target)
  {
    CleanJoinEndsPlain(dir);
    hide Join;
    var front := Absolute(dir);
    assert front[|front| - 1] == Join(dir)[|Join(dir)| - 1];
    assert front + "/" + target == "/" + (Join(dir) + "/" + target);
  }

  /** The components of `join(dir, target)`: an empty one, the directory's, the target's. */
  lemma SplitBelow(dir: seq<string>, target: string)
    requires dir != [] && AllClean(dir) && Relative(target)
    ensures Split(PosixJoin(Absolute(dir), target)) == [""] + (dir + Split(target))
  {
    hide *;
    PosixJoinBelow(dir, target);
    SplitBelowRoot(Join(dir) + "/" + target);
    SplitConcat(Join(dir), target);
    assert forall k | 0 <= k < |dir| :: '/' !in dir[k] by { CleanPartsAreWhole(dir); }
    SplitJoin(dir);
  }

  /** A path with exactly one leading slash is normalised from its remaining components. */
  lemma NormPathAbsolute(path: string, rest: seq<string>)
    requires |path| >= 2 && path[0] == '/' && path[1] != '/' && Split(path) == [""] + rest
    ensures NormPath(path) == "/" + Join(Normalized([], rest))
  {
    assert ([""] + rest)[1..] == rest;
    assert Normalized([], [""] + rest) == Normalized([], rest);
  }

  /** Normalising a relative target below a clean absolute directory. */
  lemma NormPathBelow(dir: seq<string>, target: string)
    requires AllClean(dir) && Relative(target)
    ensures NormPath(PosixJoin(Absolute(dir), target)) == "/" + Join(Normalized(dir, Split(target)))
  {
    if dir == [] {
      SplitBelowRoot(target);
      if target == "" {
        assert "/" + target == "/" && Split("/") == ["", ""] && ["", ""][1..] == [""];
      } else {
        NormPathAbsolute("/" + target, Split(target));
      }
    } else {
      PosixJoinBelow(dir, target);
      SplitBelow(dir, target);
      CleanJoinStartsPlain(dir);
      NormPathAbsolute("/" + (Join(dir) + "/" + target), dir + Split(target));
      NormalizedPushes([], dir, Split(target));
      assert [] + dir == dir;
    }
  }

  ghost predicate AllWhole(parts: seq<string>) {
    forall k | 0 <= k < |parts| :: '/' !in parts[k]
  }

  lemma {:induction false} NormalizedIsWhole(stack: seq<string>, components: seq<string>)
    requires AllWhole(stack) && AllWhole(components)
    ensures AllWhole(Normalized(stack, components))
    decreases |components|
  {
    if components != [] {
      var c, rest := components[0], components[1..];
      NormalizedIsWhole(stack, rest);
      NormalizedIsWhole(stack + [c], rest);
      if stack != [] { NormalizedIsWhole(stack[..|stack| - 1], rest); }
    }
  }

  lemma SplitIsWhole(text: string)
    ensures AllWhole(Split(text))
  {
    forall k | 0 <= k < |Split(text)| ensures '/' !in Split(text)[k] { SplitHasNoSlash(text, k); }
  }

  /** Joining forgets nothing about whole components when one side is clean and not empty. */
  lemma JoinIsInjective(a: seq<string>, b: seq<string>)
    requires AllWhole(a) && AllClean(b) && b != []
    ensures Join(a) == Join(b) <==> a == b
  {
    CleanPartsAreWhole(b);
    CleanJoinStartsPlain(b);
    SplitJoin(b);
    if a != [] { SplitJoin(a); }
  }

  /** What a path that the wrapper computes for a relative target equals. */
  lemma NormPathBelowIs(dir: seq<string>, target: string, parts: seq<string>)
    requires AllClean(dir) && Relative(target) && AllClean(parts) && parts != []
    ensures NormPath(PosixJoin(Absolute(dir), target)) == Absolute(parts)
            <==> Normalized(dir, Split(target)) == parts
  {
    hide Normalized;
    hide Split;
    hide Join;
    var n := Normalized(dir, Split(target));
    NormPathBelow(dir, target);
    CleanPartsAreWhole(dir);
    SplitIsWhole(target);
    NormalizedIsWhole(dir, Split(target));
    JoinIsInjective(n, parts);
    hide NormPath;
    hide PosixJoin;
    assert ("/" + Join(n))[1..] == Join(n) && Absolute(parts)[1..] == Join(parts);
  }

  /** What an absolute target equals; the directory it is joined to does not matter. */
  lemma NormPathAbsoluteIs(path: string, parts: seq<string>)
    requires !Relative(path) && AllClean(parts) && parts != []
    ensures NormPath(path) == Absolute(parts) <==> !DoubleSlash(path) && Normalized([], Split(path)) == parts
  {
    hide Normalized;
    hide Split;
    hide Join;
    var n := Normalized([], Split(path));
    SplitIsWhole(path);
    NormalizedIsWhole([], Split(path));
    JoinIsInjective(n, parts);
    CleanJoinStartsPlain(parts);
    var slashes := if DoubleSlash(path) then "//" else "/";
    assert NormPath(path) == slashes + Join(n);
    assert Absolute(parts)[1..] == Join(parts) && Absolute(parts)[1] != '/';
    assert ("/" + Join(n))[1..] == Join(n);
    if DoubleSlash(path) { assert NormPath(path)[1] == '/'; }
  }
}
