/**
 Accounting of mutation results: per-target metadata is folded into counts per target, per
 function and in total, with one set of mutant names seen across all targets.
 */
module MutationResults {
  import opened Options

  const ACCEPTED_EXIT_CODES: set<int> := {-24, 0, 1, 33}
  const KILLED_EXIT_CODES: set<int> := {1}
  const NO_TESTS_STATUS := 33
  const MINIMUM_KILLED_PERCENT := 65
  const MAX_MUTANT_NAME_CHARACTERS := 512
  const MAX_MUTANT_DURATION_SECONDS := 86_400.0

  type Target = string

  /** A JSON value in the exit-code map: null, an integer, or anything else. */
  datatype Status = Null | Code(code: int) | OtherStatus

  /** A JSON number, or a value that is not a finite number. */
  datatype Measure = Finite(seconds: real) | NotFinite

  datatype Metadata = Metadata(
    results: seq<(string, Status)>,
    hashes: map<string, bool>,
    durations: map<string, Measure>,
    estimates: map<string, Measure>)

  /**
   The reviewed policy of one target tuple.  `functionOf` is the mutant-name pattern: the
   function a well-formed mutant name belongs to.
   */
  datatype Policy = Policy(modules: map<Target, string>, required: map<Target, set<string>>,
                           functionOf: string -> Option<string>)

  datatype Summary = Summary(total: nat, killed: nat, targetCounts: seq<(Target, nat)>,
                             functionCounts: map<string, nat>)

  datatype Row = Row(target: Target, name: string, status: Status)

  function AfterLastDot(s: string): string {
    if '.' !in s then s else AfterLastDot(s[1..])
  }

  /** The part after the last dot: it has none, and the rest of the text ends in one. */
  lemma {:induction false} AfterLastDotExactly(s: string, front: string, last: string)
    requires '.' !in last
    ensures s == last || s == front + "." + last ==> AfterLastDot(s) == last
  {
    if s == front + "." + last && s != last {
      assert s[|front|] == '.';
      if front == "" {
        assert s[1..] == last;
      } else {
        assert s[1..] == front[1..] + "." + last;
        AfterLastDotExactly(s[1..], front[1..], last);
      }
    }
  }

  function RowsOf(target: Target, results: seq<(string, Status)>): (rows: seq<Row>)
    ensures |rows| == |results|
  {
    seq(|results|, i requires 0 <= i < |results| => Row(target, results[i].0, results[i].1))
  }

  // ------------------------------------------------------- what the results mean

  ghost predicate IsSelected(policy: Policy, r: Row) {
    && policy.functionOf(r.name).Some?
    && r.target in policy.required && policy.functionOf(r.name).value in policy.required[r.target]
  }

  ghost function Names(rows: seq<Row>): set<string> {
    set r | r in rows :: r.name
  }

  ghost function Selected(policy: Policy, rows: seq<Row>): set<string> {
    set r | r in rows && IsSelected(policy, r) :: r.name
  }

  ghost function Killed(policy: Policy, rows: seq<Row>): set<string> {
    set r | r in rows && IsSelected(policy, r) && r.status.Code? && r.status.code in KILLED_EXIT_CODES :: r.name
  }

  ghost function Unexecuted(policy: Policy, rows: seq<Row>): set<string> {
    set r | r in rows && IsSelected(policy, r) && r.status == Code(NO_TESTS_STATUS) :: r.name
  }

  ghost function OfFunction(policy: Policy, rows: seq<Row>, f: string): set<string> {
    set r | r in rows && IsSelected(policy, r) && policy.functionOf(r.name) == Some(f) :: r.name
  }

  /** The functions that have a selected mutant. */
  ghost function Covered(policy: Policy, rows: seq<Row>): set<string> {
    set r | r in rows && IsSelected(policy, r) :: policy.functionOf(r.name).value
  }

  ghost function Generated(policy: Policy, rows: seq<Row>): set<string> {
    set r | r in rows && policy.functionOf(r.name).Some? :: AfterLastDot(policy.functionOf(r.name).value)
  }

  ghost predicate ValidRow(policy: Policy, r: Row) {
    && |r.name| <= MAX_MUTANT_NAME_CHARACTERS
    && policy.functionOf(r.name).Some?
    && r.target in policy.modules && policy.modules[r.target] + "." <= policy.functionOf(r.name).value
    && (if IsSelected(policy, r) then r.status.Code? && r.status.code in ACCEPTED_EXIT_CODES else r.status == Null)
  }

  ghost predicate AllValid(policy: Policy, rows: seq<Row>) {
    forall k | 0 <= k < |rows| :: ValidRow(policy, rows[k])
  }

  ghost predicate DistinctNames(rows: seq<Row>) {
    forall i, j | 0 <= i < j < |rows| :: rows[i].name != rows[j].name
  }

  ghost predicate GoodMeasure(m: Measure) {
    m.Finite? && 0.0 <= m.seconds <= MAX_MUTANT_DURATION_SECONDS
  }

  /** A duration for every executed mutant, an estimate for every selected one, a hash for every function. */
  ghost predicate Supported(meta: Metadata, selected: set<string>, unexecuted: set<string>, generated: set<string>) {
    && (forall n :: n in meta.durations <==> n in selected && n !in unexecuted)
    && (forall n :: n in meta.estimates <==> n in selected)
    && (forall f :: f in meta.hashes <==> f in generated)
    && (forall f | f in meta.hashes :: meta.hashes[f])
    && (forall n | n in meta.durations :: GoodMeasure(meta.durations[n]))
    && (forall n | n in meta.estimates :: GoodMeasure(meta.estimates[n]))
  }

  ghost predicate TargetComplete(policy: Policy, target: Target, meta: Metadata) {
    var rows := RowsOf(target, meta.results);
    && target in policy.modules && target in policy.required
    && Supported(meta, Selected(policy, rows), Unexecuted(policy, rows), Generated(policy, rows))
    && Covered(policy, rows) == policy.required[target]
  }

  ghost function AllRows(payloads: seq<(Target, Metadata)>): seq<Row> {
    if payloads == [] then []
    else AllRows(payloads[..|payloads| - 1]) + RowsOf(payloads[|payloads| - 1].0, payloads[|payloads| - 1].1.results)
  }

  // ------------------------------------------------------------- one more result

  lemma SelectedAppend(policy: Policy, a: seq<Row>, b: seq<Row>)
    ensures Names(a + b) == Names(a) + Names(b)
    ensures Selected(policy, a + b) == Selected(policy, a) + Selected(policy, b)
    ensures Killed(policy, a + b) == Killed(policy, a) + Killed(policy, b)
    ensures Unexecuted(policy, a + b) == Unexecuted(policy, a) + Unexecuted(policy, b)
    ensures Covered(policy, a + b) == Covered(policy, a) + Covered(policy, b)
    ensures Generated(policy, a + b) == Generated(policy, a) + Generated(policy, b)
  {
  }

  lemma SubsetsOfNames(policy: Policy, rows: seq<Row>, f: string)
    ensures Selected(policy, rows) <= Names(rows)
    ensures Killed(policy, rows) <= Selected(policy, rows)
    ensures OfFunction(policy, rows, f) <= Selected(policy, rows)
  {
  }

  ghost function SumOf(counts: map<string, nat>): nat {
    if counts == map[] then 0
    else
      var f :| f in counts;
      counts[f] + SumOf(counts - {f})
  }

  lemma {:induction false} SumRemove(counts: map<string, nat>, f: string)
    requires f in counts
    ensures SumOf(counts) == counts[f] + SumOf(counts - {f})
    decreases |counts|
  {
    var g :| g in counts && SumOf(counts) == counts[g] + SumOf(counts - {g});
    if g != f {
      SumRemove(counts - {g}, f);
      SumRemove(counts - {f}, g);
      assert counts - {g} - {f} == counts - {f} - {g};
    }
  }

  function Bumped(counts: map<string, nat>, f: string): map<string, nat> {
    counts[f := if f in counts then counts[f] + 1 else 1]
  }

  lemma SumBumped(counts: map<string, nat>, f: string)
    ensures SumOf(Bumped(counts, f)) == SumOf(counts) + 1
  {
    SumRemove(Bumped(counts, f), f);
    assert Bumped(counts, f) - {f} == counts - {f};
    if f in counts { SumRemove(counts, f); } else { assert counts - {f} == counts; }
  }

  /** The running state after `rows`: nothing seen twice, every count the size of a set of mutants. */
  ghost predicate Books(policy: Policy, rows: seq<Row>, seen: set<string>, counts: map<string, nat>) {
    && seen == Names(rows) && DistinctNames(rows) && AllValid(policy, rows)
    && (forall f :: CountsMatch(policy, rows, counts, f))
    && SumOf(counts) == |Selected(policy, rows)|
  }

  lemma SingleRow(policy: Policy, r: Row)
    ensures Names([r]) == {r.name}
    ensures Selected(policy, [r]) == if IsSelected(policy, r) then {r.name} else {}
    ensures Killed(policy, [r])
            == if IsSelected(policy, r) && r.status.Code? && r.status.code in KILLED_EXIT_CODES then {r.name} else {}
    ensures Unexecuted(policy, [r])
              == if IsSelected(policy, r) && r.status == Code(NO_TESTS_STATUS) then {r.name} else {}
    ensures Covered(policy, [r]) == if IsSelected(policy, r) then {policy.functionOf(r.name).value} else {}
    ensures Generated(policy, [r])
            == if policy.functionOf(r.name).Some? then {AfterLastDot(policy.functionOf(r.name).value)} else {}
  {
    assert [r][0] == r;
  }

  lemma RowJoins(policy: Policy, rows: seq<Row>, seen: set<string>, r: Row)
    requires seen == Names(rows) && DistinctNames(rows) && AllValid(policy, rows) && ValidRow(policy, r)
             && r.name !in seen
    ensures seen + {r.name} == Names(rows + [r]) && DistinctNames(rows + [r]) && AllValid(policy, rows + [r])
  {
    var all := rows + [r];
    forall i, j | 0 <= i < j < |all| ensures all[i].name != all[j].name {
      assert all[i] in rows;
    }
    assert Names(all) == Names(rows) + {r.name} by {
      SelectedAppend(policy, rows, [r]);
      SingleRow(policy, r);
    }
  }

  ghost predicate CountsMatch(policy: Policy, rows: seq<Row>, counts: map<string, nat>, f: string) {
    && (f in counts <==> OfFunction(policy, rows, f) != {})
    && (f in counts ==> counts[f] == |OfFunction(policy, rows, f)|)
  }

  lemma FunctionJoins(policy: Policy, rows: seq<Row>, r: Row, f: string)
    ensures OfFunction(policy, rows, f) <= Names(rows)
    ensures OfFunction(policy, rows + [r], f)
            == OfFunction(policy, rows, f)
              + if IsSelected(policy, r) && policy.functionOf(r.name) == Some(f) then {r.name} else {}
  {
    FunctionAppend(policy, rows, [r], f);
    assert [r][0] == r && r in [r];
    assert OfFunction(policy, [r], f)
             == if IsSelected(policy, r) && policy.functionOf(r.name) == Some(f) then {r.name} else {};
  }

  lemma FunctionAppend(policy: Policy, a: seq<Row>, b: seq<Row>, f: string)
    ensures OfFunction(policy, a + b, f) == OfFunction(policy, a, f) + OfFunction(policy, b, f)
  {
    forall r | r in a || r in b ensures r in a + b {}
    assert forall r | r in a + b :: r in a || r in b;
  }

  lemma CountJoins(policy: Policy, rows: seq<Row>, counts: map<string, nat>, r: Row, f: string)
    requires CountsMatch(policy, rows, counts, f) && r.name !in Names(rows)
    ensures CountsMatch(policy, rows + [r],
                        if IsSelected(policy, r) then Bumped(counts, policy.functionOf(r.name).value) else counts, f)
  {
    FunctionJoins(policy, rows, r, f);
    hide Names;
    hide OfFunction;
  }

  /** What a row adds to each of the sets. */
  lemma RowAppends(policy: Policy, rows: seq<Row>, r: Row)
    requires ValidRow(policy, r) && r.name !in Names(rows)
    ensures var f, chosen := policy.functionOf(r.name).value, IsSelected(policy, r);
            && Selected(policy, rows + [r]) == Selected(policy, rows) + (if chosen then {r.name} else {})
            && Covered(policy, rows + [r]) == Covered(policy, rows) + (if chosen then {f} else {})
            && Generated(policy, rows + [r]) == Generated(policy, rows) + {AfterLastDot(f)}
            && |Selected(policy, rows + [r])| == |Selected(policy, rows)| + (if chosen then 1 else 0)
            && |Killed(policy, rows + [r])|
               == |Killed(policy, rows)| + if chosen && r.status.code in KILLED_EXIT_CODES then 1 else 0
  {
    SelectedAppend(policy, rows, [r]);
    SingleRow(policy, r);
    SubsetsOfNames(policy, rows, "");
    hide Names;
    hide Selected;
    hide Killed;
    hide Unexecuted;
    hide Covered;
    hide Generated;
    hide OfFunction;
    hide IsSelected;
  }

  lemma BooksJoin(policy: Policy, rows: seq<Row>, seen: set<string>, counts: map<string, nat>, r: Row)
    requires Books(policy, rows, seen, counts) && r.name !in seen && ValidRow(policy, r)
    ensures Books(policy, rows + [r], seen + {r.name},
                  if IsSelected(policy, r) then Bumped(counts, policy.functionOf(r.name).value) else counts)
  {
    var counts' := if IsSelected(policy, r) then Bumped(counts, policy.functionOf(r.name).value) else counts;
    RowJoins(policy, rows, seen, r);
    forall f ensures CountsMatch(policy, rows + [r], counts', f) { CountJoins(policy, rows, counts, r, f); }
    RowAppends(policy, rows, r);
    SumBumped(counts, if IsSelected(policy, r) then policy.functionOf(r.name).value else "");
    hide Names;
    hide Selected;
    hide Killed;
    hide Unexecuted;
    hide Covered;
    hide Generated;
    hide OfFunction;
    hide DistinctNames;
    hide AllValid;
    hide CountsMatch;
    hide Bumped;
    hide SumOf;
  }

  // ------------------------------------------------------------------ one target

  datatype TargetTally = TargetTally(count: nat, killed: nat, selected: set<string>, locals: set<string>,
                                     generated: set<string>)

  function Prefixed(prefix: string, locals: set<string>): set<string> {
    set l | l in locals :: prefix + l
  }

  lemma PrefixedJoins(prefix: string, locals: set<string>, f: string)
    requires prefix <= f
    ensures Prefixed(prefix, locals + {f[|prefix|..]}) == Prefixed(prefix, locals) + {f}
  {
    assert prefix + f[|prefix|..] == f;
  }

  /** What the loop over one target has gathered from `rows`; functions are kept without the module prefix. */
  ghost predicate Tallied(policy: Policy, prefix: string, rows: seq<Row>, t: TargetTally) {
    && t.selected == Selected(policy, rows) && t.count == |t.selected| && t.killed == |Killed(policy, rows)|
    && Covered(policy, rows) == Prefixed(prefix, t.locals)
    && t.generated == Generated(policy, rows)
  }

  /** The tally after a row of function `f`, which is counted if its function is required. */
  function NextTally(prefix: string, name: string, f: string, counted: bool, killed: bool, t: TargetTally): TargetTally
    requires prefix <= f
  {
    var t' := t.(generated := t.generated + {AfterLastDot(f)});
    if !counted then t'
    else t'.(selected := t.selected + {name}, locals := t.locals + {f[|prefix|..]}, count := t.count + 1,
             killed := t.killed + if killed then 1 else 0)
  }

  /** How one result is read: refused, left out because its function is not required, or counted. */
  datatype Reading = Refused | LeftOut(function': string) | Taken(function': string, killed: bool)

  ghost predicate ReadAs(policy: Policy, r: Row, seen: set<string>, reading: Reading) {
    && (reading.Refused? <==> !ValidRow(policy, r) || r.name in seen)
    && (!reading.Refused? ==>
          && policy.functionOf(r.name) == Some(reading.function')
          && (reading.Taken? <==> IsSelected(policy, r))
          && (reading.Taken? ==> (reading.killed <==> r.status == Code(1))))
  }

  /** One entry of the exit-code map, checked in the order of the loop. */
  method ReadRow(policy: Policy, target: Target, name: string, status: Status, seen: set<string>, prefix: string)
    returns (reading: Reading)
    requires target in policy.modules && target in policy.required && prefix == policy.modules[target] + "."
    ensures ReadAs(policy, Row(target, name, status), seen, reading)
  {
    var f := policy.functionOf(name);
    if f.None? || |name| > MAX_MUTANT_NAME_CHARACTERS || name in seen { return Refused; }
    if !(prefix <= f.value) { return Refused; }
    if f.value !in policy.required[target] {
      if status != Null { return Refused; }
      return LeftOut(f.value);
    }
    if !status.Code? || status.code !in ACCEPTED_EXIT_CODES { return Refused; }
    return Taken(f.value, status.code in KILLED_EXIT_CODES);
  }

  method ValidMeasures(measures: map<string, Measure>) returns (ok: bool)
    ensures ok <==> forall n | n in measures :: GoodMeasure(measures[n])
  {
    ok := !(exists n | n in measures ::
              || !measures[n].Finite? || measures[n].seconds < 0.0
              || measures[n].seconds > MAX_MUTANT_DURATION_SECONDS);
  }

  method ValidateTargetSupport(meta: Metadata, selected: set<string>, unexecuted: set<string>, generated: set<string>)
    returns (ok: bool)
    ensures ok <==> Supported(meta, selected, unexecuted, generated)
  {
    hide GoodMeasure;
    if meta.durations.Keys != selected - unexecuted || meta.estimates.Keys != selected { return false; }
    if exists f | f in meta.hashes :: !meta.hashes[f] { return false; }
    if meta.hashes.Keys != generated { return false; }
    ok := ValidMeasures(meta.durations);
    if !ok { return; }
    ok := ValidMeasures(meta.estimates);
  }

  lemma TallyJoins(policy: Policy, prefix: string, rows: seq<Row>, r: Row, t: TargetTally)
    requires Tallied(policy, prefix, rows, t) && ValidRow(policy, r) && r.name !in Names(rows)
    requires prefix <= policy.functionOf(r.name).value
    ensures Tallied(policy, prefix, rows + [r],
                    NextTally(prefix, r.name, policy.functionOf(r.name).value, IsSelected(policy, r),
                              r.status == Code(1), t))
  {
    hide Names;
    hide Selected;
    hide Killed;
    hide Covered;
    hide Generated;
    hide AfterLastDot;
    hide Prefixed;
    RowAppends(policy, rows, r);
    PrefixedJoins(prefix, t.locals, policy.functionOf(r.name).value);
    var t' := NextTally(prefix, r.name, policy.functionOf(r.name).value, IsSelected(policy, r), r.status == Code(1), t);
    assert IsSelected(policy, r) ==> r.status.Code?;
    assert t'.killed == t.killed + if IsSelected(policy, r) && r.status.code in KILLED_EXIT_CODES then 1 else 0;
    assert t'.selected == Selected(policy, rows + [r]);
    assert t'.generated == Generated(policy, rows + [r]);
    assert Prefixed(prefix, t'.locals) == Covered(policy, rows + [r]);
  }

  lemma UnexecutedAreSelected(policy: Policy, target: Target, results: seq<(string, Status)>)
    requires DistinctNames(RowsOf(target, results))
    ensures (set p | p in results && p.0 in Selected(policy, RowsOf(target, results)) && p.1 == Code(NO_TESTS_STATUS) ::
               p.0)
            == Unexecuted(policy, RowsOf(target, results))
  {
    var rows := RowsOf(target, results);
    forall p | p in results && p.0 in Selected(policy, rows) && p.1 == Code(NO_TESTS_STATUS)
      ensures p.0 in Unexecuted(policy, rows)
    {
      var i :| 0 <= i < |results| && results[i] == p;
      var j :| 0 <= j < |rows| && IsSelected(policy, rows[j]) && rows[j].name == p.0;
      assert rows[i].name == p.0 && i == j;
    }
    forall n | n in Unexecuted(policy, rows)
      ensures n in (set p | p in results && p.0 in Selected(policy, rows) && p.1 == Code(NO_TESTS_STATUS) :: p.0)
    {
      var j :| 0 <= j < |rows| && IsSelected(policy, rows[j]) && rows[j].status == Code(NO_TESTS_STATUS)
      && rows[j].name == n;
      assert results[j] in results && rows[j] in rows;
    }
  }

  /** A row that stops the fold spoils the whole list it belongs to. */
  lemma BadRow(policy: Policy, before: seq<Row>, rows: seq<Row>, seen: set<string>, i: nat)
    requires i < |rows| && seen == Names(before + rows[..i])
    requires !ValidRow(policy, rows[i]) || rows[i].name in seen
    ensures !(AllValid(policy, before + rows) && DistinctNames(before + rows))
  {
    var all, k := before + rows, |before| + i;
    assert all[k] == rows[i];
    if rows[i].name in seen {
      var r :| r in before + rows[..i] && r.name == rows[i].name;
      var j :| 0 <= j < k && (before + rows[..i])[j] == r;
      assert all[j] == r;
    }
  }

  lemma DistinctSuffix(before: seq<Row>, rows: seq<Row>)
    requires DistinctNames(before + rows)
    ensures DistinctNames(rows)
  {
    forall i, j | 0 <= i < j < |rows| ensures rows[i].name != rows[j].name {
      assert (before + rows)[|before| + i] == rows[i] && (before + rows)[|before| + j] == rows[j];
    }
  }

  /** One accepted row of a target, added to the books of all targets and to the target's tally. */
  lemma TargetStep(policy: Policy, prefix: string, before: seq<Row>, rows: seq<Row>, i: nat, seen: set<string>,
                   counts: map<string, nat>, tally: TargetTally)
    requires i < |rows| && ValidRow(policy, rows[i]) && rows[i].name !in seen
             && prefix <= policy.functionOf(rows[i].name).value
    requires Books(policy, before + rows[..i], seen, counts) && Tallied(policy, prefix, rows[..i], tally)
    ensures Books(policy, before + rows[..i + 1], seen + {rows[i].name},
                  if IsSelected(policy, rows[i]) then Bumped(counts, policy.functionOf(rows[i].name).value) else counts)
    ensures Tallied(policy, prefix, rows[..i + 1],
                    NextTally(prefix, rows[i].name, policy.functionOf(rows[i].name).value, IsSelected(policy, rows[i]),
                              rows[i].status == Code(1), tally))
  {
    assert rows[..i + 1] == rows[..i] + [rows[i]];
    assert before + rows[..i] + [rows[i]] == before + rows[..i + 1];
    SelectedAppend(policy, before, rows[..i]);
    hide Tallied;
    hide ValidRow;
    hide IsSelected;
    hide Names;
    hide Selected;
    BooksJoin(policy, before + rows[..i], seen, counts, rows[i]);
    TallyJoins(policy, prefix, rows[..i], rows[i], tally);
  }

  method ParseTargetMutants(policy: Policy, target: Target, meta: Metadata, seen: set<string>, counts: map<string, nat>,
                            ghost before: seq<Row>)
    returns (r: Checked<(nat, nat, set<string>)>, seen': set<string>, counts': map<string, nat>)
    requires target in policy.modules && target in policy.required && Books(policy, before, seen, counts)
    ensures var rows := RowsOf(target, meta.results);
            r.Ok? <==> && AllValid(policy, before + rows) && DistinctNames(before + rows)
                       && Supported(meta, Selected(policy, rows), Unexecuted(policy, rows), Generated(policy, rows))
    ensures var rows := RowsOf(target, meta.results);
            r.Ok? ==> && Books(policy, before + rows, seen', counts')
                      && r.value == (|Selected(policy, rows)|, |Killed(policy, rows)|, Covered(policy, rows))
  {
    ghost var rows := RowsOf(target, meta.results);
    var prefix := policy.modules[target] + ".";
    var tally := TargetTally(0, 0, {}, {}, {});
    seen', counts' := seen, counts;
    var i := 0;
    assert rows[..0] == [] && before + [] == before;
    assert Tallied(policy, prefix, [], tally);
    hide Killed;
    hide Covered;
    hide Generated;
    hide Unexecuted;
    hide CountsMatch;
    hide Supported;
    while i < |meta.results|
      invariant i <= |meta.results|
      invariant Books(policy, before + rows[..i], seen', counts') && Tallied(policy, prefix, rows[..i], tally)
    {
      var row := Row(target, meta.results[i].0, meta.results[i].1);
      assert row == rows[i];
      var reading := ReadRow(policy, target, row.name, row.status, seen', prefix);
      if reading.Refused? {
        BadRow(policy, before, rows, seen', i);
        r := Raised;
        return;
      }
      TargetStep(policy, prefix, before, rows, i, seen', counts', tally);
      seen' := seen' + {row.name};
      if reading.Taken? { counts' := Bumped(counts', reading.function'); }
      tally := NextTally(prefix, row.name, reading.function', reading.Taken?, reading.Taken? && reading.killed, tally);
      i := i + 1;
    }
    assert rows[..i] == rows;
    DistinctSuffix(before, rows);
    UnexecutedAreSelected(policy, target, meta.results);
    var unexecuted := set p | p in meta.results && p.0 in tally.selected && p.1 == Code(NO_TESTS_STATUS) :: p.0;
    var supported := ValidateTargetSupport(meta, tally.selected, unexecuted, tally.generated);
    if !supported { r := Raised; return; }
    r := Ok((tally.count, tally.killed, Prefixed(prefix, tally.locals)));
  }

  // ------------------------------------------------------------------ all targets

  /** Exactly the results the gate accepts. */
  ghost predicate Acceptable(policy: Policy, payloads: seq<(Target, Metadata)>) {
    var rows := AllRows(payloads);
    && AllValid(policy, rows) && DistinctNames(rows)
    && (forall k | 0 <= k < |payloads| :: TargetComplete(policy, payloads[k].0, payloads[k].1))
    && 100 * |Killed(policy, rows)| >= MINIMUM_KILLED_PERCENT * |Selected(policy, rows)|
  }

  lemma {:induction false} AllRowsPrefix(payloads: seq<(Target, Metadata)>, i: nat)
    requires i <= |payloads|
    ensures AllRows(payloads[..i]) <= AllRows(payloads)
    decreases |payloads|
  {
    if i == |payloads| {
      assert payloads[..i] == payloads;
    } else {
      var shorter := payloads[..|payloads| - 1];
      AllRowsPrefix(shorter, i);
      assert shorter[..i] == payloads[..i];
    }
  }

  lemma PrefixIsBad(policy: Policy, payloads: seq<(Target, Metadata)>, i: nat)
    requires i <= |payloads| && !(AllValid(policy, AllRows(payloads[..i])) && DistinctNames(AllRows(payloads[..i])))
    ensures !Acceptable(policy, payloads)
  {
    AllRowsPrefix(payloads, i);
    var part, all := AllRows(payloads[..i]), AllRows(payloads);
    assert forall k | 0 <= k < |part| :: part[k] == all[k];
  }

  ghost function CountSum(counts: seq<(Target, nat)>): nat {
    if counts == [] then 0 else CountSum(counts[..|counts| - 1]) + counts[|counts| - 1].1
  }

  /** A complete target, with the number of mutants selected for it. */
  ghost predicate Counted(policy: Policy, payload: (Target, Metadata), count: (Target, nat)) {
    && TargetComplete(policy, payload.0, payload.1)
    && count == (payload.0, |Selected(policy, RowsOf(payload.0, payload.1.results))|)
  }

  ghost predicate AllCounted(policy: Policy, payloads: seq<(Target, Metadata)>, counts: seq<(Target, nat)>) {
    |counts| == |payloads| && forall k | 0 <= k < |counts| :: Counted(policy, payloads[k], counts[k])
  }

  /** The totals after some targets, against the rows they came from. */
  ghost predicate Totals(policy: Policy, rows: seq<Row>, total: nat, killed: nat, counts: seq<(Target, nat)>) {
    total == |Selected(policy, rows)| == CountSum(counts) && killed == |Killed(policy, rows)|
  }

  /** Two batches of rows with different names have disjoint sets of mutants. */
  lemma BatchesAdd(policy: Policy, before: seq<Row>, rows: seq<Row>)
    requires DistinctNames(before + rows)
    ensures |Selected(policy, before + rows)| == |Selected(policy, before)| + |Selected(policy, rows)|
    ensures |Killed(policy, before + rows)| == |Killed(policy, before)| + |Killed(policy, rows)|
  {
    forall i, j | 0 <= i < |before| && 0 <= j < |rows| ensures before[i].name != rows[j].name {
      assert (before + rows)[i] == before[i] && (before + rows)[|before| + j] == rows[j];
    }
    assert Names(before) !! Names(rows);
    SelectedAppend(policy, before, rows);
    SubsetsOfNames(policy, before, "");
    SubsetsOfNames(policy, rows, "");
    assert Selected(policy, before) !! Selected(policy, rows);
    assert Killed(policy, before) !! Killed(policy, rows);
  }

  lemma TotalsJoin(policy: Policy, before: seq<Row>, rows: seq<Row>, total: nat, killed: nat,
                   counts: seq<(Target, nat)>, target: Target)
    requires Totals(policy, before, total, killed, counts) && DistinctNames(before + rows)
    ensures Totals(policy, before + rows, total + |Selected(policy, rows)|, killed + |Killed(policy, rows)|,
                   counts + [(target, |Selected(policy, rows)|)])
  {
    BatchesAdd(policy, before, rows);
    hide Selected;
    hide Killed;
    hide DistinctNames;
    assert (counts + [(target, |Selected(policy, rows)|)])[..|counts|] == counts;
  }

  lemma CountedJoin(policy: Policy, payloads: seq<(Target, Metadata)>, i: nat, counts: seq<(Target, nat)>,
                    count: (Target, nat))
    requires i < |payloads| && AllCounted(policy, payloads[..i], counts) && Counted(policy, payloads[i], count)
    ensures AllCounted(policy, payloads[..i + 1], counts + [count])
  {
    hide Counted;
    forall k | 0 <= k < i + 1 ensures Counted(policy, payloads[..i + 1][k], (counts + [count])[k]) {
      if k < i { assert Counted(policy, payloads[..i][k], counts[k]); }
    }
  }

  lemma AllRowsStep(payloads: seq<(Target, Metadata)>, i: nat)
    requires i < |payloads|
    ensures AllRows(payloads[..i + 1]) == AllRows(payloads[..i]) + RowsOf(payloads[i].0, payloads[i].1.results)
  {
    assert payloads[..i + 1][..i] == payloads[..i];
  }

  method ParseTargets(policy: Policy, payloads: seq<(Target, Metadata)>) returns (r: Checked<Summary>)
    ensures r.Ok? <==> Acceptable(policy, payloads)
    ensures r.Ok? ==> && Totals(policy, AllRows(payloads), r.value.total, r.value.killed, r.value.targetCounts)
                      && AllCounted(policy, payloads, r.value.targetCounts)
                      && Books(policy, AllRows(payloads), Names(AllRows(payloads)), r.value.functionCounts)
  {
    var total: nat, killed: nat, i := 0, 0, 0;
    var seen: set<string>, counts: map<string, nat>, targetCounts: seq<(Target, nat)> := {}, map[], [];
    assert payloads[..0] == [];
    hide Acceptable;
    while i < |payloads|
      invariant i <= |payloads|
      invariant Books(policy, AllRows(payloads[..i]), seen, counts)
      invariant Totals(policy, AllRows(payloads[..i]), total, killed, targetCounts)
      invariant AllCounted(policy, payloads[..i], targetCounts)
    {
      var target, meta := payloads[i].0, payloads[i].1;
      ghost var rows := RowsOf(target, meta.results);
      AllRowsStep(payloads, i);
      if target !in policy.modules || target !in policy.required {
        NotAcceptable(policy, payloads, i);
        return Raised;
      }
      var parsed;
      parsed, seen, counts := ParseTargetMutants(policy, target, meta, seen, counts, AllRows(payloads[..i]));
      if parsed.Raised? || parsed.value.2 != policy.required[target] {
        NotAcceptable(policy, payloads, i);
        return Raised;
      }
      TotalsJoin(policy, AllRows(payloads[..i]), rows, total, killed, targetCounts, target);
      CountedJoin(policy, payloads, i, targetCounts, (target, parsed.value.0));
      total, killed := total + parsed.value.0, killed + parsed.value.1;
      targetCounts := targetCounts + [(target, parsed.value.0)];
      i := i + 1;
    }
    assert payloads[..i] == payloads;
    AcceptableExactly(policy, payloads, seen, counts, total, killed, targetCounts);
    if killed * 100 < total * MINIMUM_KILLED_PERCENT { return Raised; }
    return Ok(Summary(total, killed, targetCounts, counts));
  }

  lemma AcceptableExactly(policy: Policy, payloads: seq<(Target, Metadata)>, seen: set<string>,
                          counts: map<string, nat>, total: nat, killed: nat, targetCounts: seq<(Target, nat)>)
    requires Books(policy, AllRows(payloads), seen, counts) && AllCounted(policy, payloads, targetCounts)
    requires Totals(policy, AllRows(payloads), total, killed, targetCounts)
    ensures Acceptable(policy, payloads) <==> killed * 100 >= total * MINIMUM_KILLED_PERCENT
    ensures seen == Names(AllRows(payloads))
  {
    forall k | 0 <= k < |payloads| ensures TargetComplete(policy, payloads[k].0, payloads[k].1) {
      assert Counted(policy, payloads[k], targetCounts[k]);
    }
  }

  /**
   The results are accepted exactly when every result is valid, no mutant name occurs twice
   across the targets, each target is complete and the kill floor is met; and then the totals,
   the counts per target and the counts per function are the sizes of the sets of mutants.
   */
  method ParseMutationResults(registry: map<seq<Target>, Policy>, payloads: seq<(Target, Metadata)>)
    returns (r: Checked<Summary>)
    ensures var targets := seq(|payloads|, k requires 0 <= k < |payloads| => payloads[k].0);
            && (r.Ok? <==> targets in registry && Acceptable(registry[targets], payloads))
            && (r.Ok? ==> && Totals(registry[targets], AllRows(payloads), r.value.total, r.value.killed,
                                    r.value.targetCounts)
                          && AllCounted(registry[targets], payloads, r.value.targetCounts)
                          && Books(registry[targets], AllRows(payloads), Names(AllRows(payloads)),
                                   r.value.functionCounts))
  {
    hide Acceptable;
    hide Totals;
    hide AllCounted;
    hide Books;
    var targets := seq(|payloads|, k requires 0 <= k < |payloads| => payloads[k].0);
    if targets !in registry { return Raised; }
    r := ParseTargets(registry[targets], payloads);
  }

  lemma NotAcceptable(policy: Policy, payloads: seq<(Target, Metadata)>, i: nat)
    requires i < |payloads|
    requires var rows := RowsOf(payloads[i].0, payloads[i].1.results);
             || !(AllValid(policy, AllRows(payloads[..i]) + rows) && DistinctNames(AllRows(payloads[..i]) + rows))
             || !TargetComplete(policy, payloads[i].0, payloads[i].1)
    ensures !Acceptable(policy, payloads)
  {
    AllRowsStep(payloads, i);
    if TargetComplete(policy, payloads[i].0, payloads[i].1) { PrefixIsBad(policy, payloads, i + 1); }
  }

  ghost predicate Requires(policy: Policy, target: Target, f: string) {
    target in policy.required && f in policy.required[target]
  }

  ghost predicate RequiredSomewhere(policy: Policy, payloads: seq<(Target, Metadata)>, f: string) {
    exists k :: 0 <= k < |payloads| && Requires(policy, payloads[k].0, f)
  }

  lemma RequiredSplits(policy: Policy, payloads: seq<(Target, Metadata)>, last: (Target, Metadata), f: string)
    ensures RequiredSomewhere(policy, payloads + [last], f)
            <==> RequiredSomewhere(policy, payloads, f) || Requires(policy, last.0, f)
  {
    var all := payloads + [last];
    assert all[|payloads|] == last;
    if k :| 0 <= k < |payloads| && Requires(policy, payloads[k].0, f) { assert all[k] == payloads[k]; }
  }

  lemma CompleteCovers(policy: Policy, target: Target, meta: Metadata, f: string)
    requires TargetComplete(policy, target, meta)
    ensures f in Covered(policy, RowsOf(target, meta.results)) <==> Requires(policy, target, f)
  {
  }

  ghost predicate AllComplete(policy: Policy, payloads: seq<(Target, Metadata)>) {
    forall k | 0 <= k < |payloads| :: TargetComplete(policy, payloads[k].0, payloads[k].1)
  }

  lemma {:induction false} CoveredByTargets(policy: Policy, payloads: seq<(Target, Metadata)>, f: string)
    requires AllComplete(policy, payloads)
    ensures f in Covered(policy, AllRows(payloads)) <==> RequiredSomewhere(policy, payloads, f)
  {
    hide TargetComplete;
    hide Requires;
    if payloads != [] {
      var n := |payloads| - 1;
      var shorter, last := payloads[..n], payloads[n];
      assert AllComplete(policy, shorter) && TargetComplete(policy, last.0, last.1);
      assert shorter + [last] == payloads;
      hide AllComplete;
      hide Covered;
      hide RequiredSomewhere;
      CoveredByTargets(policy, shorter, f);
      SelectedAppend(policy, AllRows(shorter), RowsOf(last.0, last.1.results));
      CompleteCovers(policy, last.0, last.1, f);
      RequiredSplits(policy, shorter, last, f);
    }
  }

  /**
   Accepted results conserve counts: the total is the sum over targets and over functions, the
   functions counted are exactly the required ones and each has a mutant, no more are killed
   than there are, and the kill floor holds.
   */
  lemma AcceptedResultsConserve(policy: Policy, payloads: seq<(Target, Metadata)>, s: Summary)
    requires Acceptable(policy, payloads)
    requires Totals(policy, AllRows(payloads), s.total, s.killed, s.targetCounts)
    requires Books(policy, AllRows(payloads), Names(AllRows(payloads)), s.functionCounts)
    ensures s.total == CountSum(s.targetCounts) == SumOf(s.functionCounts)
    ensures s.killed <= s.total && 100 * s.killed >= 65 * s.total
    ensures forall f :: f in s.functionCounts <==> RequiredSomewhere(policy, payloads, f)
    ensures forall f | f in s.functionCounts :: s.functionCounts[f] >= 1
  {
    var rows := AllRows(payloads);
    SubsetsOfNames(policy, rows, "");
    SubsetCardinality(Killed(policy, rows), Selected(policy, rows));
    forall f ensures f in s.functionCounts <==> RequiredSomewhere(policy, payloads, f)
             ensures f in s.functionCounts ==> s.functionCounts[f] >= 1
    {
      assert CountsMatch(policy, rows, s.functionCounts, f);
      CoveredByTargets(policy, payloads, f);
      CoveredHasMutant(policy, rows, f);
    }
  }

  lemma CoveredHasMutant(policy: Policy, rows: seq<Row>, f: string)
    ensures f in Covered(policy, rows) <==> OfFunction(policy, rows, f) != {}
  {
    if f in Covered(policy, rows) {
      var r :| r in rows && IsSelected(policy, r) && policy.functionOf(r.name).value == f;
      assert r.name in OfFunction(policy, rows, f);
    }
    if n :| n in OfFunction(policy, rows, f) {
      var r :| r in rows && IsSelected(policy, r) && policy.functionOf(r.name) == Some(f) && r.name == n;
      assert policy.functionOf(r.name).value in Covered(policy, rows);
    }
  }

  lemma {:induction false} SubsetCardinality(a: set<string>, b: set<string>)
    requires a <= b
    ensures |a| <= |b|
  {
    if a != {} {
      var x :| x in a;
      SubsetCardinality(a - {x}, b - {x});
    }
  }
}
