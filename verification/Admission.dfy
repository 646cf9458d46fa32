/**
 Admission at the HTTP boundary: zero-waiter gates, one per principal, and the middleware
 that holds a permit for the whole life of a request.  Requests arrive, are refused, bypass
 the gate, finish and fail in any interleaving.
 */
module Admission {
  import opened Options

  type Key = string
  type Rid = nat

  datatype Gate = Gate(capacity: nat, active: nat)

  function TryAcquire(g: Gate): (Gate, bool) {
    if g.active >= g.capacity then (g, false) else (g.(active := g.active + 1), true)
  }

  function Release(g: Gate): Checked<Gate> {
    if g.active <= 0 then Raised else Ok(g.(active := g.active - 1))
  }

  /** A process-local, zero-waiter concurrency gate; each method runs under its lock. */
  class AdmissionGate {
    const capacity: nat
    var active: nat

    constructor (capacity: nat)
      requires capacity > 0
      ensures this.capacity == capacity && active == 0
    {
      this.capacity, this.active := capacity, 0;
    }

    /** A non-positive capacity raises. */
    static method Create(capacity: int) returns (r: Checked<AdmissionGate>)
      ensures r.Ok? <==> capacity > 0
      ensures r.Ok? ==> fresh(r.value) && r.value.State() == Gate(capacity, 0)
    {
      if capacity <= 0 { return Raised; }
      var gate := new AdmissionGate(capacity);
      return Ok(gate);
    }

    ghost function State(): Gate reads this {
      Gate(capacity, active)
    }

    method TryAcquirePermit() returns (admitted: bool)
      modifies this
      ensures (State(), admitted) == TryAcquire(old(State()))
    {
      if active >= capacity { return false; }
      active := active + 1;
      return true;
    }

    method ReleasePermit() returns (ok: bool)
      modifies this
      ensures ok <==> Release(old(State())).Ok?
      ensures State() == if ok then Release(old(State())).value else old(State())
    {
      if active <= 0 { return false; }
      active := active - 1;
      return true;
    }
  }

  /** One gate for each configured principal. */
  class PrincipalAdmission {
    const gates: map<Key, AdmissionGate>

    ghost predicate Valid() {
      forall a, b | a in gates && b in gates && a != b :: gates[a] != gates[b]
    }

    ghost function States(): map<Key, Gate>
      reads set k | k in gates :: gates[k]
    {
      map k | k in gates :: gates[k].State()
    }

    constructor (identifiers: seq<Key>, capacity: nat)
      requires identifiers != [] && capacity > 0
      requires forall i, j | 0 <= i < j < |identifiers| :: identifiers[i] != identifiers[j]
      ensures Valid() && fresh(set k | k in gates :: gates[k])
      ensures States() == map k | k in identifiers :: Gate(capacity, 0)
    {
      var table: map<Key, AdmissionGate> := map[];
      var i := 0;
      while i < |identifiers|
        invariant i <= |identifiers| && table.Keys == set k | k in identifiers[..i]
        invariant forall k | k in table :: fresh(table[k]) && table[k].State() == Gate(capacity, 0)
        invariant forall a, b | a in table && b in table && a != b :: table[a] != table[b]
      {
        var gate := new AdmissionGate(capacity);
        assert identifiers[..i + 1] == identifiers[..i] + [identifiers[i]];
        table := table[identifiers[i] := gate];
        i := i + 1;
      }
      assert identifiers[..i] == identifiers;
      gates := table;
    }

    /** Missing or repeated identifiers, or a non-positive capacity, raise. */
    static method Create(identifiers: seq<Key>, capacity: int) returns (r: Checked<PrincipalAdmission>)
      ensures r.Ok? <==> identifiers != [] && capacity > 0
                         && forall i, j | 0 <= i < j < |identifiers| :: identifiers[i] != identifiers[j]
      ensures r.Ok? ==> r.value.Valid() && r.value.States() == map k | k in identifiers :: Gate(capacity, 0)
    {
      if identifiers == [] || capacity <= 0 { return Raised; }
      if exists i, j :: 0 <= i < j < |identifiers| && identifiers[i] == identifiers[j] { return Raised; }
      var admission := new PrincipalAdmission(identifiers, capacity);
      return Ok(admission);
    }

    /** An unknown principal raises; otherwise only that principal's gate changes. */
    method TryAcquireFor(principal: Key) returns (r: Checked<bool>)
      requires Valid()
      modifies set k | k in gates :: gates[k]
      ensures r.Ok? <==> principal in gates
      ensures States()
                == if r.Ok? then old(States())[principal := TryAcquire(old(States())[principal]).0] else old(States())
      ensures r.Ok? ==> r.value == TryAcquire(old(States())[principal]).1
    {
      if principal !in gates { return Raised; }
      var admitted := gates[principal].TryAcquirePermit();
      return Ok(admitted);
    }

    method ReleaseFor(principal: Key) returns (ok: bool)
      requires Valid()
      modifies set k | k in gates :: gates[k]
      ensures ok <==> principal in gates && Release(old(States())[principal]).Ok?
      ensures States()
                == if ok then old(States())[principal := Release(old(States())[principal]).value] else old(States())
    {
      if principal !in gates { return false; }
      ok := gates[principal].ReleasePermit();
    }
  }

  // --------------------------------------------------------- requests interleaved

  /** `key` is the principal; a middleware instance has a single key. */
  datatype Scope = Scope(http: bool, path: Option<string>, key: Key)

  datatype Phase = Waiting | Bypassing | Refused | Admitted | Ended | ReleaseRaised

  datatype System = System(gates: map<Key, Gate>, phases: map<Rid, Phase>)

  /** A request reaches the boundary, or its response is over, normally or by an exception. */
  datatype Move = Arrive(rid: Rid) | End(rid: Rid, raised: bool)

  predicate Guarded(prefix: string, scope: Scope) {
    scope.http && prefix <= (if scope.path.Some? then scope.path.value else "")
  }

  function Step(prefix: string, scopes: map<Rid, Scope>, s: System, m: Move): System
    requires m.rid in scopes && m.rid in s.phases
  {
    var r, phase, scope := m.rid, s.phases[m.rid], scopes[m.rid];
    match m
    case Arrive(_) =>
      if !phase.Waiting? then s
      else if !Guarded(prefix, scope) then s.(phases := s.phases[r := Bypassing])
      else if scope.key !in s.gates then s.(phases := s.phases[r := Ended])
      else
        var (gate, admitted) := TryAcquire(s.gates[scope.key]);
        System(s.gates[scope.key := gate], s.phases[r := if admitted then Admitted else Refused])
    case End(_, _) =>
      if phase.Admitted? && scope.key in s.gates then
        match Release(s.gates[scope.key])
        case Ok(gate) => System(s.gates[scope.key := gate], s.phases[r := Ended])
        case Raised => s.(phases := s.phases[r := ReleaseRaised])
      else if phase.Bypassing? || phase.Refused? then s.(phases := s.phases[r := Ended])
      else s
  }

  predicate Init(scopes: map<Rid, Scope>, s: System) {
    && s.phases.Keys == scopes.Keys
    && (forall k | k in s.gates :: s.gates[k].active == 0 && s.gates[k].capacity > 0)
    && (forall r | r in s.phases :: s.phases[r] == Waiting)
  }

  predicate Execution(prefix: string, scopes: map<Rid, Scope>, run: seq<System>, moves: seq<Move>) {
    && |run| == |moves| + 1 && Init(scopes, run[0])
    && (forall t | 0 <= t < |moves| ::
          && moves[t].rid in scopes && moves[t].rid in run[t].phases
          && run[t + 1] == Step(prefix, scopes, run[t], moves[t]))
  }

  /** The admitted, unfinished requests of one key. */
  function Holders(scopes: map<Rid, Scope>, phases: map<Rid, Phase>, k: Key): set<Rid> {
    set r | r in scopes && r in phases && phases[r] == Admitted && scopes[r].key == k
  }

  ghost predicate Conserved(scopes: map<Rid, Scope>, s: System) {
    && s.phases.Keys == scopes.Keys
    && (forall k | k in s.gates :: s.gates[k].active == |Holders(scopes, s.phases, k)| <= s.gates[k].capacity)
    && (forall r | r in s.phases :: s.phases[r] != ReleaseRaised)
    && (forall r | r in s.phases && s.phases[r] == Admitted :: scopes[r].key in s.gates)
  }

  lemma HoldersAfter(scopes: map<Rid, Scope>, phases: map<Rid, Phase>, r: Rid, now: Phase, k: Key)
    requires r in scopes && phases.Keys == scopes.Keys
    ensures var before, after := Holders(scopes, phases, k), Holders(scopes, phases[r := now], k);
            if scopes[r].key != k || (phases[r] == Admitted) == (now == Admitted) then after == before
            else if now == Admitted then r !in before && after == before + {r}
            else r in before && after == before - {r}
  {
  }

  /** Only `r` changes its phase, and its gate's count changes by the change of its own admission. */
  ghost predicate Balances(scopes: map<Rid, Scope>, s: System, t: System, r: Rid)
    requires r in scopes && r in s.phases
  {
    var k := scopes[r].key;
    && t.gates.Keys == s.gates.Keys && r in t.phases && t.phases == s.phases[r := t.phases[r]]
    && t.phases[r] != ReleaseRaised
    && (forall g | g in s.gates && g != k :: t.gates[g] == s.gates[g])
    && (t.phases[r] == Admitted ==> k in s.gates)
    && (k in s.gates ==>
          && t.gates[k].capacity == s.gates[k].capacity && t.gates[k].active <= t.gates[k].capacity
          && t.gates[k].active - s.gates[k].active ==
             (if t.phases[r] == Admitted then 1 else 0) - (if s.phases[r] == Admitted then 1 else 0))
  }

  /** What a step does to the phase of its request and to the gate of its key. */
  lemma StepBalances(prefix: string, scopes: map<Rid, Scope>, s: System, m: Move)
    requires Conserved(scopes, s) && m.rid in scopes
    ensures Balances(scopes, s, Step(prefix, scopes, s, m), m.rid)
  {
    var r, k := m.rid, scopes[m.rid].key;
    if s.phases[r] == Admitted { assert r in Holders(scopes, s.phases, k); }
  }

  lemma GateConserved(scopes: map<Rid, Scope>, s: System, t: System, r: Rid, k: Key)
    requires Conserved(scopes, s) && r in scopes && Balances(scopes, s, t, r) && k in t.gates
    ensures t.gates[k].active == |Holders(scopes, t.phases, k)| <= t.gates[k].capacity
  {
    HoldersAfter(scopes, s.phases, r, t.phases[r], k);
    hide Holders;
    assert s.gates[k].active == |Holders(scopes, s.phases, k)| <= s.gates[k].capacity;
  }

  lemma StepConserves(prefix: string, scopes: map<Rid, Scope>, s: System, m: Move)
    requires Conserved(scopes, s) && m.rid in scopes
    ensures Conserved(scopes, Step(prefix, scopes, s, m))
  {
    var t := Step(prefix, scopes, s, m);
    StepBalances(prefix, scopes, s, m);
    hide Step;
    hide Holders;
    forall k | k in t.gates ensures t.gates[k].active == |Holders(scopes, t.phases, k)| <= t.gates[k].capacity {
      GateConserved(scopes, s, t, m.rid, k);
    }
  }

  /**
   In every interleaving the permits held are exactly the admitted unfinished requests, never
   more than the capacity, and no release raises.
   */
  lemma {:induction false} PermitsAreConserved(prefix: string, scopes: map<Rid, Scope>, run: seq<System>,
                                               moves: seq<Move>, t: nat)
    requires Execution(prefix, scopes, run, moves) && t < |run|
    ensures Conserved(scopes, run[t])
  {
    if t == 0 {
      forall k | k in run[0].gates ensures Holders(scopes, run[0].phases, k) == {} { }
    } else {
      PermitsAreConserved(prefix, scopes, run, moves, t - 1);
      StepConserves(prefix, scopes, run[t - 1], moves[t - 1]);
    }
  }

  /** A guarded request is refused exactly when as many requests of its own key are in flight as the gate allows. */
  lemma RefusedOnlyAtCapacity(prefix: string, scopes: map<Rid, Scope>, run: seq<System>, moves: seq<Move>, t: nat,
                              r: Rid)
    requires Execution(prefix, scopes, run, moves) && t < |moves| && moves[t] == Arrive(r)
    requires run[t].phases[r] == Waiting && Guarded(prefix, scopes[r]) && scopes[r].key in run[t].gates
    ensures var full := |Holders(scopes, run[t].phases, scopes[r].key)| == run[t].gates[scopes[r].key].capacity;
            && (run[t + 1].phases[r] == Refused <==> full)
            && (run[t + 1].phases[r] == Admitted <==> !full)
  {
    PermitsAreConserved(prefix, scopes, run, moves, t);
  }

  /** When no request is in flight every permit has come back. */
  lemma QuiescenceReturnsAllPermits(prefix: string, scopes: map<Rid, Scope>, run: seq<System>, moves: seq<Move>, t: nat,
                                    k: Key)
    requires Execution(prefix, scopes, run, moves) && t < |run| && k in run[t].gates
    requires forall r | r in run[t].phases :: run[t].phases[r] != Admitted
    ensures run[t].gates[k].active == 0
  {
    PermitsAreConserved(prefix, scopes, run, moves, t);
    assert Holders(scopes, run[t].phases, k) == {};
  }

  // --------------------------------------------------------- the life of one request

  /** What an arriving request becomes, and what that does to the gates, by its scope. */
  lemma ArrivalIsDecided(prefix: string, scopes: map<Rid, Scope>, s: System, r: Rid)
    requires r in scopes && r in s.phases && s.phases[r] == Waiting
    ensures var t, scope := Step(prefix, scopes, s, Arrive(r)), scopes[r];
            var path := if scope.path.Some? then scope.path.value else "";
            if !scope.http || |path| < |prefix| || path[..|prefix|] != prefix then
              t == System(s.gates, s.phases[r := Bypassing])
            else if scope.key !in s.gates then t == System(s.gates, s.phases[r := Ended])
            else
              var g := s.gates[scope.key];
              if g.active < g.capacity then
                t == System(s.gates[scope.key := Gate(g.capacity, g.active + 1)], s.phases[r := Admitted])
              else t == System(s.gates, s.phases[r := Refused])
  {
    assert forall k | k in s.gates :: s.gates[k := s.gates[k]] == s.gates;
  }

  /** However it ends, an admitted request gives back one permit of its own gate and is over. */
  lemma EndReturnsThePermit(prefix: string, scopes: map<Rid, Scope>, s: System, r: Rid, raised: bool)
    requires Conserved(scopes, s) && r in scopes && s.phases[r] == Admitted
    ensures scopes[r].key in s.gates && s.gates[scopes[r].key].active > 0
    ensures var k := scopes[r].key;
            Step(prefix, scopes, s, End(r, raised))
            == System(s.gates[k := Gate(s.gates[k].capacity, s.gates[k].active - 1)], s.phases[r := Ended])
  {
    assert r in Holders(scopes, s.phases, scopes[r].key);
  }

  /** Any other request that has arrived ends without touching a gate. */
  lemma EndTouchesNoGate(prefix: string, scopes: map<Rid, Scope>, s: System, r: Rid, raised: bool)
    requires r in scopes && r in s.phases && (s.phases[r] == Bypassing || s.phases[r] == Refused)
    ensures Step(prefix, scopes, s, End(r, raised)) == System(s.gates, s.phases[r := Ended])
  {
  }

  /** A request leaves `Waiting` only by arriving, is over once it has ended, and stays over. */
  ghost predicate Lives(p: Phase, m: Move, q: Phase, r: Rid) {
    && (q == Waiting <==> p == Waiting && m != Arrive(r))
    && (p == Ended ==> q == Ended)
    && (m.End? && m.rid == r && p != Waiting && p != ReleaseRaised ==> q == Ended)
  }

  lemma OtherLives(prefix: string, scopes: map<Rid, Scope>, s: System, m: Move, r: Rid)
    requires m.rid in scopes && m.rid in s.phases && r in s.phases && r != m.rid
    ensures r in Step(prefix, scopes, s, m).phases && Step(prefix, scopes, s, m).phases[r] == s.phases[r]
  {
  }

  lemma OwnLife(prefix: string, scopes: map<Rid, Scope>, s: System, m: Move)
    requires Conserved(scopes, s) && m.rid in scopes
    ensures m.rid in Step(prefix, scopes, s, m).phases
    ensures Lives(s.phases[m.rid], m, Step(prefix, scopes, s, m).phases[m.rid], m.rid)
  {
    var r := m.rid;
    if m.Arrive? {
      if s.phases[r] == Waiting { ArrivalIsDecided(prefix, scopes, s, r); }
    } else if s.phases[r] == Admitted {
      EndReturnsThePermit(prefix, scopes, s, r, m.raised);
      hide Step;
    }
    hide Holders;
  }

  lemma LifeStep(prefix: string, scopes: map<Rid, Scope>, run: seq<System>, moves: seq<Move>, t: nat, r: Rid)
    requires Execution(prefix, scopes, run, moves) && t < |moves| && r in scopes
    ensures r in run[t].phases && r in run[t + 1].phases && run[t].phases[r] != ReleaseRaised
    ensures Lives(run[t].phases[r], moves[t], run[t + 1].phases[r], r)
  {
    hide Step;
    hide Holders;
    PermitsAreConserved(prefix, scopes, run, moves, t);
    if moves[t].rid == r {
      OwnLife(prefix, scopes, run[t], moves[t]);
    } else {
      OtherLives(prefix, scopes, run[t], moves[t], r);
    }
  }

  /** A request that has ended after it arrived stays over. */
  lemma {:induction false} EndedIsOver(prefix: string, scopes: map<Rid, Scope>, run: seq<System>, moves: seq<Move>,
                                       u: nat, v: nat, t: nat, r: Rid)
    requires Execution(prefix, scopes, run, moves) && u < v < t < |run| && r in scopes
    requires moves[u] == Arrive(r) && moves[v].End? && moves[v].rid == r
    ensures r in run[t].phases && run[t].phases[r] == Ended
  {
    if t == v + 1 {
      ArrivedIsNotWaiting(prefix, scopes, run, moves, u, v, r);
    } else {
      EndedIsOver(prefix, scopes, run, moves, u, v, t - 1, r);
    }
    LifeStep(prefix, scopes, run, moves, t - 1, r);
  }

  lemma {:induction false} ArrivedIsNotWaiting(prefix: string, scopes: map<Rid, Scope>, run: seq<System>,
                                               moves: seq<Move>, u: nat, t: nat, r: Rid)
    requires Execution(prefix, scopes, run, moves) && u < t < |run| && r in scopes && moves[u] == Arrive(r)
    ensures r in run[t].phases && run[t].phases[r] != Waiting
  {
    LifeStep(prefix, scopes, run, moves, t - 1, r);
    if t > u + 1 { ArrivedIsNotWaiting(prefix, scopes, run, moves, u, t - 1, r); }
  }

  lemma {:induction false} NotArrivedWaits(prefix: string, scopes: map<Rid, Scope>, run: seq<System>, moves: seq<Move>,
                                           t: nat, r: Rid)
    requires Execution(prefix, scopes, run, moves) && t < |run| && r in scopes
    requires forall u | 0 <= u < t :: moves[u] != Arrive(r)
    ensures r in run[t].phases && run[t].phases[r] == Waiting
  {
    if t > 0 {
      NotArrivedWaits(prefix, scopes, run, moves, t - 1, r);
      LifeStep(prefix, scopes, run, moves, t - 1, r);
    }
  }

  /** The response of a request that arrived before `t` is over, normally or by an exception. */
  ghost predicate Finished(moves: seq<Move>, t: nat, r: Rid)
    requires t <= |moves|
  {
    forall u | 0 <= u < t && moves[u] == Arrive(r) :: exists v :: u < v < t && moves[v].End? && moves[v].rid == r
  }

  /** Once every request of a principal that arrived has ended, however it ended, all its permits are back. */
  lemma FinishedRequestsReturnAllPermits(prefix: string, scopes: map<Rid, Scope>, run: seq<System>, moves: seq<Move>,
                                         t: nat, k: Key)
    requires Execution(prefix, scopes, run, moves) && t < |run| && k in run[t].gates
    requires forall r | r in scopes && scopes[r].key == k :: Finished(moves, t, r)
    ensures run[t].gates[k].active == 0
  {
    PermitsAreConserved(prefix, scopes, run, moves, t);
    forall r | r in scopes && scopes[r].key == k ensures run[t].phases[r] != Admitted {
      if u :| 0 <= u < t && moves[u] == Arrive(r) {
        var v :| u < v < t && moves[v].End? && moves[v].rid == r;
        EndedIsOver(prefix, scopes, run, moves, u, v, t, r);
      } else {
        NotArrivedWaits(prefix, scopes, run, moves, t, r);
      }
    }
    assert Holders(scopes, run[t].phases, k) == {};
  }

  /** The moves that concern one key. */
  function Project(scopes: map<Rid, Scope>, moves: seq<Move>, k: Key): seq<Move> {
    if moves == [] then []
    else
      var last := moves[|moves| - 1];
      Project(scopes, moves[..|moves| - 1], k) + if last.rid in scopes && scopes[last.rid].key == k then [last] else []
  }

  ghost predicate SameFor(scopes: map<Rid, Scope>, a: System, b: System, k: Key) {
    && (k in a.gates <==> k in b.gates) && (k in a.gates ==> a.gates[k] == b.gates[k])
    && a.phases.Keys == b.phases.Keys
    && (forall r | r in a.phases && r in scopes && scopes[r].key == k :: a.phases[r] == b.phases[r])
  }

  lemma ForeignStepKeeps(prefix: string, scopes: map<Rid, Scope>, s: System, m: Move, k: Key)
    requires m.rid in scopes && m.rid in s.phases && scopes[m.rid].key != k
    ensures SameFor(scopes, s, Step(prefix, scopes, s, m), k)
  {
  }

  lemma OwnStepAgrees(prefix: string, scopes: map<Rid, Scope>, a: System, b: System, m: Move, k: Key)
    requires m.rid in scopes && m.rid in a.phases && m.rid in b.phases && scopes[m.rid].key == k
    requires SameFor(scopes, a, b, k)
    ensures SameFor(scopes, Step(prefix, scopes, a, m), Step(prefix, scopes, b, m), k)
  {
  }

  lemma SameForTransitive(scopes: map<Rid, Scope>, a: System, b: System, c: System, k: Key)
    requires SameFor(scopes, a, b, k)
    ensures SameFor(scopes, b, c, k) ==> SameFor(scopes, a, c, k)
    ensures SameFor(scopes, a, c, k) ==> SameFor(scopes, c, b, k)
  {
  }

  /** The last move joins the projection exactly if it concerns the key. */
  lemma ProjectLast(scopes: map<Rid, Scope>, moves: seq<Move>, k: Key)
    requires moves != [] && moves[|moves| - 1].rid in scopes
    ensures var last := moves[|moves| - 1];
            Project(scopes, moves, k) == Project(scopes, moves[..|moves| - 1], k)
              + if scopes[last.rid].key == k then [last] else []
  {
  }

  lemma EqualLast(a: seq<Move>, b: seq<Move>, x: Move, y: Move)
    requires a + [x] == b + [y]
    ensures a == b && x == y
  {
    assert (a + [x])[..|a|] == a && (b + [y])[..|b|] == b && (a + [x])[|a|] == x;
  }

  lemma ExecutionPrefix(prefix: string, scopes: map<Rid, Scope>, run: seq<System>, moves: seq<Move>)
    requires Execution(prefix, scopes, run, moves) && moves != []
    ensures Execution(prefix, scopes, run[..|moves|], moves[..|moves| - 1])
    ensures var n := |moves|;
            && |run| == n + 1 && moves[n - 1].rid in scopes && moves[n - 1].rid in run[n - 1].phases
            && run[n] == Step(prefix, scopes, run[n - 1], moves[n - 1])
  {
    var n := |moves|;
    forall t | 0 <= t < n - 1 ensures run[..n][t + 1] == Step(prefix, scopes, run[..n][t], moves[..n - 1][t]) {
      assert run[t + 1] == Step(prefix, scopes, run[t], moves[t]);
    }
  }

  /**
   One principal never affects another: what a key's gate and requests go through depends on
   that key's own moves alone, whatever the other principals do in between.
   */
  lemma {:induction false} PrincipalsAreIsolated(
    prefix: string, scopes: map<Rid, Scope>, run: seq<System>, moves: seq<Move>,
    run': seq<System>, moves': seq<Move>, k: Key)
    requires Execution(prefix, scopes, run, moves) && Execution(prefix, scopes, run', moves')
    requires SameFor(scopes, run[0], run'[0], k) && Project(scopes, moves, k) == Project(scopes, moves', k)
    ensures SameFor(scopes, run[|moves|], run'[|moves'|], k)
    decreases |moves| + |moves'|
  {
    var n, n' := |moves|, |moves'|;
    if n > 0 { ExecutionPrefix(prefix, scopes, run, moves); ProjectLast(scopes, moves, k); }
    if n' > 0 { ExecutionPrefix(prefix, scopes, run', moves'); ProjectLast(scopes, moves', k); }
    assert |run| == n + 1 && |run'| == n' + 1;
    hide Execution;
    hide Step;
    hide SameFor;
    if n > 0 && scopes[moves[n - 1].rid].key != k {
      PrincipalsAreIsolated(prefix, scopes, run[..n], moves[..n - 1], run', moves', k);
      ForeignStepKeeps(prefix, scopes, run[n - 1], moves[n - 1], k);
      SameForTransitive(scopes, run[n - 1], run'[n'], run[n], k);
    } else if n' > 0 && scopes[moves'[n' - 1].rid].key != k {
      PrincipalsAreIsolated(prefix, scopes, run, moves, run'[..n'], moves'[..n' - 1], k);
      ForeignStepKeeps(prefix, scopes, run'[n' - 1], moves'[n' - 1], k);
      SameForTransitive(scopes, run[n], run'[n' - 1], run'[n'], k);
    } else if n > 0 && n' > 0 {
      EqualLast(Project(scopes, moves[..n - 1], k), Project(scopes, moves'[..n' - 1], k), moves[n - 1], moves'[n' - 1]);
      PrincipalsAreIsolated(prefix, scopes, run[..n], moves[..n - 1], run'[..n'], moves'[..n' - 1], k);
      OwnStepAgrees(prefix, scopes, run[n - 1], run'[n' - 1], moves[n - 1], k);
    }
  }
}
