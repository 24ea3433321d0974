/** Goals: durable records that only reach completion through a gate. The verdict of the text
  * lint on a request is an input, and so are the clock and the slug of a title. Fields that are
  * only copied are not modelled. */
module Goals {
  import opened Base
  import opened Text
  import Decimal

  // ---- evidence ------------------------------------------------------------------------------

  datatype Evidence = Evidence(
    kind: string, label_: string, command: string, outcome: string, path: string, url: string, notes: string,
    createdAt: string)

  /** A verification kind whatever its outcome, or a command that passed. */
  predicate IsVerification(e: Evidence) {
    || Lower(Trim(e.kind)) in {"verification", "test", "build", "lint"}
    || (!Blank(e.command) && Lower(Trim(e.outcome)) in {"pass", "passed", "success", "ok"})
  }

  function Normalized(e: Evidence, now: string): Evidence {
    Evidence(if Blank(e.kind) then "note" else Trim(e.kind), Trim(e.label_), Trim(e.command), Trim(e.outcome),
             Trim(e.path), Trim(e.url), Trim(e.notes), if Blank(e.createdAt) then now else e.createdAt)
  }

  lemma NoteIsNoVerification()
    ensures Lower(Trim("note")) !in {"verification", "test", "build", "lint"} &&
      Lower("") !in {"verification", "test", "build", "lint"}
  {
    assert !White('n') && !White('e');
    assert TrimStart("note") == "note" && TrimEnd("note") == "note";
    assert Lower("note")[0] == 'n' && |Lower("note")| == 4 && |Lower("")| == 0;
  }

  /** Normalizing evidence neither makes nor unmakes a verification. */
  lemma NormalizedVerifies(e: Evidence, now: string)
    ensures IsVerification(Normalized(e, now)) <==> IsVerification(e)
  {
    hide Trim, Lower;
    TrimTwice(e.kind);
    TrimTwice(e.command);
    TrimTwice(e.outcome);
    NoteIsNoVerification();
  }

  function NormalizedAll(es: seq<Evidence>, now: string): (r: seq<Evidence>)
    ensures |r| == |es|
  {
    seq(|es|, i requires 0 <= i < |es| => Normalized(es[i], now))
  }

  predicate Verified(es: seq<Evidence>) { exists k :: 0 <= k < |es| && IsVerification(es[k]) }

  const SKIP_KIND: string := "verification-skip"

  /** The record an operator's skip leaves. */
  function Skip(reason: string, now: string): Evidence {
    Evidence(SKIP_KIND, "Verification skipped by operator", "", "skipped", "", "", Trim(reason), now)
  }

  predicate IsSkip(e: Evidence) { e.kind == SKIP_KIND && e.outcome == "skipped" && !Blank(e.notes) }

  predicate Skipped(es: seq<Evidence>) { exists k :: 0 <= k < |es| && IsSkip(es[k]) }

  // ---- identifiers -------------------------------------------------------------------------------

  /** The number of a counter as it stands in an identifier. */
  function NumberText(n: nat): string { var d := Decimal.Dec(n); seq(|d|, i requires 0 <= i < |d| => d[i] as char) }

  function Numbered(stem: string, n: nat): string { stem + "-" + NumberText(n) }

  lemma NumberedInjective(stem: string, m: nat, n: nat)
    requires Numbered(stem, m) == Numbered(stem, n)
    ensures m == n
  {
    var a, b := Numbered(stem, m), Numbered(stem, n);
    var c, d := Decimal.Dec(m), Decimal.Dec(n);
    assert a[|stem| + 1..] == NumberText(m) && b[|stem| + 1..] == NumberText(n);
    assert |c| == |d|;
    forall i | 0 <= i < |c| ensures c[i] == d[i] { assert NumberText(m)[i] == NumberText(n)[i]; }
    assert c == d;
    Decimal.ValueOfDec(m);
    Decimal.ValueOfDec(n);
  }

  /** The names taken from a number on. */
  ghost function Taken(seen: set<string>, stem: string, i: nat): set<string> {
    set s | s in seen && exists j :: j >= i && s == Numbered(stem, j)
  }

  lemma TakenShrinks(seen: set<string>, stem: string, i: nat)
    requires Numbered(stem, i) in seen
    ensures |Taken(seen, stem, i + 1)| < |Taken(seen, stem, i)|
  {
    hide Numbered;
    var a, b := Taken(seen, stem, i + 1), Taken(seen, stem, i);
    assert Numbered(stem, i) in b;
    if Numbered(stem, i) in a {
      var j :| j >= i + 1 && Numbered(stem, i) == Numbered(stem, j);
      NumberedInjective(stem, i, j);
    }
    assert a <= b - {Numbered(stem, i)};
    SmallerSet(a, b - {Numbered(stem, i)});
  }

  lemma SmallerSet(a: set<string>, b: set<string>)
    requires a <= b
    ensures |a| <= |b|
  {
    assert b == a + (b - a);
  }

  /** The first free number. The names already given out run out of numbers before the counter
    * does, so the search ends. */
  function FirstFree(seen: set<string>, stem: string, i: nat): (n: nat)
    ensures n >= i && Numbered(stem, n) !in seen && forall j :: i <= j < n ==> Numbered(stem, j) in seen
    decreases |Taken(seen, stem, i)|
  {
    if Numbered(stem, i) !in seen then i
    else
      TakenShrinks(seen, stem, i);
      FirstFree(seen, stem, i + 1)
  }

  /** The identifier of a new goal: the slug, with the time, or with a counter. */
  function FreshId(seen: set<string>, base: string, suffix: string): (id: string)
    ensures id !in seen
  {
    if base !in seen then base
    else if base + "-" + suffix !in seen then base + "-" + suffix
    else Numbered(base + "-" + suffix, FirstFree(seen, base + "-" + suffix, 2))
  }

  method UniqueGoalId(goals: seq<Goal>, base: string, suffix: string) returns (id: string)
    ensures id == FreshId(Ids(goals), base, suffix)
  {
    hide Numbered;
    var seen := Ids(goals);
    if base !in seen { return base; }
    var stem := base + "-" + suffix;
    if stem !in seen { return stem; }
    var i := 2;
    while true
      invariant FirstFree(seen, stem, i) == FirstFree(seen, stem, 2)
      decreases |Taken(seen, stem, i)|
    {
      if Numbered(stem, i) !in seen { return Numbered(stem, i); }
      TakenShrinks(seen, stem, i);
      i := i + 1;
    }
  }

  // ---- records ------------------------------------------------------------------------------------

  datatype Status = Draft | Active | Blocked | Complete | Archived

  datatype Goal = Goal(
    id: string, title: string, objective: string, status: Status, evidence: seq<Evidence>, createdAt: string,
    updatedAt: string, completedAt: Option<string>)

  datatype Iteration = Iteration(id: string, goal: string, summary: string, evidence: seq<Evidence>, createdAt: string)

  /** What is on disk: the goals, and the iterations of each. */
  datatype Store = Store(goals: seq<Goal>, iterations: map<string, seq<Iteration>>)

  function Ids(goals: seq<Goal>): set<string> { set g | g in goals :: g.id }

  function IterationsOf(its: map<string, seq<Iteration>>, id: string): seq<Iteration>
  {
    if id in its then its[id] else []
  }

  /** The evidence of a list of iterations, in order. */
  function Gathered(its: seq<Iteration>): seq<Evidence> {
    if its == [] then [] else Gathered(its[..|its| - 1]) + its[|its| - 1].evidence
  }

  /** The first goal with an identifier. */
  function Position(goals: seq<Goal>, id: string): (r: Option<nat>)
    ensures r.Some? ==> r.value < |goals| && goals[r.value].id == id
    ensures r.None? <==> forall k :: 0 <= k < |goals| ==> goals[k].id != id
  {
    if goals == [] then None
    else if goals[0].id == id then Some(0)
    else
      var r := Position(goals[1..], id);
      if r.None? then None else Some(r.value + 1)
  }

  // ---- requests -----------------------------------------------------------------------------------

  /** `clean` says that the lint found nothing that blocks. */
  datatype Request =
    | Create(title: string, objective: string, clean: bool)
    | Append(goal: string, summary: string, evidence: seq<Evidence>, clean: bool)
    | Update(goal: string, status: Status, reason: string)

  /** When a request runs: the time, the compact form of it, the title's slug, and how many of
    * the files it writes, one after another, are written before a write fails. */
  datatype Moment = Moment(now: string, compact: string, slug: string, writes: nat)

  datatype Refusal = Invalid | SlopBlocked | NotFound | CompletionBlocked | WriteFailed

  /** What a request that wrote some of its files says. */
  function Wrote(m: Moment, files: nat): Outcome { if m.writes >= files then Done else Refused(WriteFailed) }

  datatype Outcome = Done | Refused(why: Refusal)

  datatype Result = Result(store: Store, outcome: Outcome)

  function Created(s: Store, r: Request, m: Moment): Result
    requires r.Create?
  {
    if Blank(r.title) || Blank(r.objective) then Result(s, Refused(Invalid))
    else if !r.clean then Result(s, Refused(SlopBlocked))
    else
      var id := FreshId(Ids(s.goals), m.slug, m.compact);
      var g := Goal(id, Trim(r.title), Trim(r.objective), Draft, [], m.now, m.now, None);
      // the goals, the iterations, the ledger
      var goals := if m.writes >= 1 then s.goals + [g] else s.goals;
      var iterations := if m.writes >= 2 then s.iterations[id := []] else s.iterations;
      Result(Store(goals, iterations), Wrote(m, 3))
  }

  function IterationId(m: Moment, count: nat): string {
    var t := NumberText(count);
    m.compact + "-" + (if |t| == 1 then "00" + t else if |t| == 2 then "0" + t else t)
  }

  function Appended(s: Store, r: Request, m: Moment): Result
    requires r.Append?
  {
    var at := Position(s.goals, r.goal);
    if at.None? then Result(s, Refused(NotFound))
    else if !r.clean then Result(s, Refused(SlopBlocked))
    else
      var k, its := at.value, IterationsOf(s.iterations, r.goal);
      var added := NormalizedAll(r.evidence, m.now);
      var it := Iteration(IterationId(m, |its| + 1), r.goal, Trim(r.summary), added, m.now);
      var g := s.goals[k].(updatedAt := m.now, evidence := s.goals[k].evidence + added);
      // the iterations, the goals, the ledger
      var iterations := if m.writes >= 1 then s.iterations[r.goal := its + [it]] else s.iterations;
      var goals := if m.writes >= 2 then s.goals[k := g] else s.goals;
      Result(Store(goals, iterations), Wrote(m, 3))
  }

  /** The gate: evidence on the goal or its iterations, a reason to skip, or a goal that has
    * passed it before. */
  predicate MayComplete(g: Goal, its: seq<Iteration>, reason: string) {
    g.status == Complete || Verified(g.evidence) || Verified(Gathered(its)) || !Blank(reason)
  }

  function Updated(s: Store, r: Request, m: Moment): Result
    requires r.Update?
  {
    var at := Position(s.goals, r.goal);
    if at.None? then Result(s, Refused(NotFound))
    else
      var k, its := at.value, IterationsOf(s.iterations, r.goal);
      var g := s.goals[k];
      if r.status == Complete && !MayComplete(g, its, r.reason) then Result(s, Refused(CompletionBlocked))
      else
        var skips := r.status == Complete && !Verified(g.evidence) && !Verified(Gathered(its));
        var evidence := if skips then g.evidence + [Skip(r.reason, m.now)] else g.evidence;
        var completed := if r.status == Complete then Some(m.now) else None;
        var g' := g.(status := r.status, evidence := evidence, updatedAt := m.now, completedAt := completed);
        // the goals, the ledger
        Result(if m.writes >= 1 then s.(goals := s.goals[k := g']) else s, Wrote(m, 2))
  }

  function Step(s: Store, r: Request, m: Moment): Result {
    match r
    case Create(_, _, _) => Created(s, r, m)
    case Append(_, _, _, _) => Appended(s, r, m)
    case Update(_, _, _) => Updated(s, r, m)
  }

  // ---- the operations ------------------------------------------------------------------------------

  method AnyVerification(es: seq<Evidence>) returns (found: bool)
    ensures found <==> Verified(es)
  {
    for k := 0 to |es|
      invariant !Verified(es[..k])
    {
      if IsVerification(es[k]) { return true; }
    }
    assert es[..|es|] == es;
    return false;
  }

  method NormalizeEvidence(items: seq<Evidence>, now: string) returns (r: seq<Evidence>)
    ensures r == NormalizedAll(items, now)
    ensures Verified(r) <==> Verified(items)
  {
    hide Normalized, IsVerification;
    r := [];
    for k := 0 to |items|
      invariant r == NormalizedAll(items[..k], now)
    {
      r := r + [Normalized(items[k], now)];
    }
    assert items[..|items|] == items;
    forall k | 0 <= k < |items| ensures IsVerification(r[k]) <==> IsVerification(items[k]) {
      NormalizedVerifies(items[k], now);
    }
  }

  /** The workspace's files, and the operations that load, change and save them. */
  class Workspace {
    var goals: seq<Goal>
    var iterations: map<string, seq<Iteration>>

    constructor ()
      ensures Contents() == Store([], map[])
    {
      goals, iterations := [], map[];
    }

    function Contents(): Store
      reads this
    {
      Store(goals, iterations)
    }

    method CreateGoal(title: string, objective: string, clean: bool, m: Moment) returns (outcome: Outcome)
      modifies this
      ensures Result(Contents(), outcome) == Created(old(Contents()), Create(title, objective, clean), m)
    {
      hide Trim, FreshId;
      if Trim(title) == "" || Trim(objective) == "" { return Refused(Invalid); }
      if !clean { return Refused(SlopBlocked); }
      var id := UniqueGoalId(goals, m.slug, m.compact);
      if m.writes < 1 { return Refused(WriteFailed); }
      goals := goals + [Goal(id, Trim(title), Trim(objective), Draft, [], m.now, m.now, None)];
      if m.writes < 2 { return Refused(WriteFailed); }
      iterations := iterations[id := []];
      return Wrote(m, 3);
    }

    method AppendIteration(goal: string, summary: string, evidence: seq<Evidence>, clean: bool, m: Moment)
      returns (outcome: Outcome)
      modifies this
      ensures Result(Contents(), outcome) == Appended(old(Contents()), Append(goal, summary, evidence, clean), m)
    {
      hide Trim, NormalizedAll, Verified, IterationId;
      var at := Position(goals, goal);
      if at.None? { return Refused(NotFound); }
      if !clean { return Refused(SlopBlocked); }
      var its := IterationsOf(iterations, goal);
      var added := NormalizeEvidence(evidence, m.now);
      if m.writes < 1 { return Refused(WriteFailed); }
      iterations := iterations[goal := its + [Iteration(IterationId(m, |its| + 1), goal, Trim(summary), added, m.now)]];
      if m.writes < 2 { return Refused(WriteFailed); }
      var g := goals[at.value];
      goals := goals[at.value := g.(updatedAt := m.now, evidence := g.evidence + added)];
      return Wrote(m, 3);
    }

    method UpdateStatus(goal: string, status: Status, reason: string, m: Moment) returns (outcome: Outcome)
      modifies this
      ensures Result(Contents(), outcome) == Updated(old(Contents()), Update(goal, status, reason), m)
    {
      hide Trim, Verified, Gathered, Skip;
      var at := Position(goals, goal);
      if at.None? { return Refused(NotFound); }
      var g := goals[at.value];
      if status == Complete {
        var its := IterationsOf(iterations, goal);
        var own := AnyVerification(g.evidence);
        var theirs := AnyVerification(Gathered(its));
        if g.status != Complete && !own && !theirs && Blank(reason) { return Refused(CompletionBlocked); }
        if !own && !theirs { g := g.(evidence := g.evidence + [Skip(reason, m.now)]); }
      }
      if m.writes < 1 { return Refused(WriteFailed); }
      var completed := if status == Complete then Some(m.now) else None;
      goals := goals[at.value := g.(status := status, updatedAt := m.now, completedAt := completed)];
      return Wrote(m, 2);
    }
  }

  // ---- what every run keeps -------------------------------------------------------------------------

  ghost predicate DistinctIds(goals: seq<Goal>) { forall i, j :: 0 <= i < j < |goals| ==> goals[i].id != goals[j].id }

  ghost predicate GoalSound(g: Goal, its: seq<Iteration>) {
    && (g.completedAt.Some? <==> g.status == Complete)
    && (g.status == Complete ==> Verified(g.evidence) || Verified(Gathered(its)) || Skipped(g.evidence))
  }

  /** Identifiers are distinct; a goal is complete exactly while it has a completion time; and a
    * complete goal has verification evidence, its own or an iteration's, or a skip with a
    * reason. */
  ghost predicate Inv(s: Store) {
    && DistinctIds(s.goals)
    && (forall k :: 0 <= k < |s.goals| ==> GoalSound(s.goals[k], IterationsOf(s.iterations, s.goals[k].id)))
    && (forall id :: id in s.iterations ==> id in Ids(s.goals))
  }

  ghost predicate Prefix<T>(a: seq<T>, b: seq<T>) { |a| <= |b| && b[..|a|] == a }

  /** Nothing recorded is lost: goals keep their place and identity, evidence and iterations
    * only grow. */
  ghost predicate Grows(s: Store, t: Store) {
    && |s.goals| <= |t.goals|
    && (forall k :: 0 <= k < |s.goals| ==>
          && s.goals[k].id == t.goals[k].id && s.goals[k].title == t.goals[k].title
          && s.goals[k].objective == t.goals[k].objective && s.goals[k].createdAt == t.goals[k].createdAt
          && Prefix(s.goals[k].evidence, t.goals[k].evidence)
          && Prefix(IterationsOf(s.iterations, s.goals[k].id), IterationsOf(t.iterations, s.goals[k].id)))
  }

  lemma VerifiedGrows(a: seq<Evidence>, b: seq<Evidence>)
    ensures Verified(a) ==> Verified(a + b)
    ensures Skipped(a) ==> Skipped(a + b)
  {
    hide IsVerification, IsSkip;
    if Verified(a) {
      var k :| 0 <= k < |a| && IsVerification(a[k]);
      assert IsVerification((a + b)[k]);
    }
    if Skipped(a) {
      var k :| 0 <= k < |a| && IsSkip(a[k]);
      assert IsSkip((a + b)[k]);
    }
  }

  lemma SkipCounts(es: seq<Evidence>, reason: string, now: string)
    requires !Blank(reason)
    ensures Skipped(es + [Skip(reason, now)])
  {
    TrimTwice(reason);
    hide Trim;
    assert IsSkip((es + [Skip(reason, now)])[|es|]);
  }

  lemma GatheredSnoc(its: seq<Iteration>, it: Iteration)
    ensures Gathered(its + [it]) == Gathered(its) + it.evidence
  {
    assert (its + [it])[..|its|] == its;
  }

  /** A new goal, with its iterations or before they are written. */
  lemma CreatedKeeps(s: Store, g: Goal, its: map<string, seq<Iteration>>)
    requires Inv(s) && g.id !in Ids(s.goals) && g.status == Draft && g.completedAt.None?
    requires its == s.iterations || its == s.iterations[g.id := []]
    ensures Inv(Store(s.goals + [g], its))
  {
    hide GoalSound;
    var t := Store(s.goals + [g], its);
    forall k | 0 <= k < |s.goals| ensures s.goals[k].id != g.id {
      assert s.goals[k] in s.goals && s.goals[k].id in Ids(s.goals);
    }
    forall k | 0 <= k < |t.goals| ensures GoalSound(t.goals[k], IterationsOf(t.iterations, t.goals[k].id)) {
      if k < |s.goals| {
        assert t.goals[k] == s.goals[k];
      } else {
        assert g.id !in s.iterations;
        NewIsSound(t.goals[k]);
      }
    }
    assert t.goals[|s.goals|] in t.goals;
    forall i | i in t.iterations ensures i in Ids(t.goals) {
      if i != g.id { assert i in Ids(s.goals); }
    }
  }

  lemma CreateKeeps(s: Store, r: Request, m: Moment)
    requires Inv(s) && r.Create?
    ensures Inv(Step(s, r, m).store)
  {
    hide Trim, FreshId, Inv;
    var t := Step(s, r, m).store;
    if t.goals != s.goals {
      assert t.goals == s.goals + [t.goals[|s.goals|]];
      CreatedKeeps(s, t.goals[|s.goals|], t.iterations);
    }
  }

  lemma NewIsSound(g: Goal)
    requires g.status == Draft && g.completedAt.None?
    ensures GoalSound(g, [])
  {
  }

  /** Replacing one goal in place, with its iterations or without. */
  lemma ReplaceKeeps(s: Store, k: nat, g: Goal, its: seq<Iteration>)
    requires Inv(s) && k < |s.goals| && g.id == s.goals[k].id && GoalSound(g, its)
    ensures Inv(Store(s.goals[k := g], s.iterations[g.id := its]))
  {
    hide GoalSound;
    var t := Store(s.goals[k := g], s.iterations[g.id := its]);
    forall j | 0 <= j < |t.goals| ensures GoalSound(t.goals[j], IterationsOf(t.iterations, t.goals[j].id)) {
      if j != k { assert t.goals[j] == s.goals[j] && t.goals[j].id != g.id; }
    }
    SameIds(s.goals, k, g);
  }

  lemma SameIds(goals: seq<Goal>, k: nat, g: Goal)
    requires k < |goals| && g.id == goals[k].id
    ensures Ids(goals[k := g]) == Ids(goals)
  {
    var after := goals[k := g];
    forall x | x in Ids(goals) ensures x in Ids(after) {
      var j :| 0 <= j < |goals| && goals[j].id == x;
      assert after[j].id == x && after[j] in after;
    }
    forall x | x in Ids(after) ensures x in Ids(goals) {
      var j :| 0 <= j < |after| && after[j].id == x;
      assert goals[j].id == x && goals[j] in goals;
    }
  }

  /** Evidence added to an iteration, and to the goal or not yet. */
  lemma AppendSound(g: Goal, its: seq<Iteration>, it: Iteration, g': Goal)
    requires GoalSound(g, its) && (g'.evidence == g.evidence + it.evidence || g' == g)
    requires g'.status == g.status && g'.completedAt == g.completedAt
    ensures GoalSound(g', its + [it])
  {
    hide Verified, Skipped, Gathered;
    VerifiedGrows(g.evidence, it.evidence);
    VerifiedGrows(Gathered(its), it.evidence);
    GatheredSnoc(its, it);
  }

  lemma AppendKeeps(s: Store, r: Request, m: Moment)
    requires Inv(s) && r.Append?
    ensures Inv(Step(s, r, m).store)
  {
    hide Trim, NormalizedAll, GoalSound, Inv, IterationId;
    var at := Position(s.goals, r.goal);
    var t := Step(s, r, m).store;
    if at.Some? && r.clean && m.writes >= 1 {
      var k, its := at.value, IterationsOf(s.iterations, r.goal);
      var added := NormalizedAll(r.evidence, m.now);
      var it := Iteration(IterationId(m, |its| + 1), r.goal, Trim(r.summary), added, m.now);
      SoundAt(s, k);
      AppendSound(s.goals[k], its, it, t.goals[k]);
      ReplaceKeeps(s, k, t.goals[k], its + [it]);
      assert t == Store(s.goals[k := t.goals[k]], s.iterations[r.goal := its + [it]]);
    }
  }

  lemma SoundAt(s: Store, k: nat)
    requires Inv(s) && k < |s.goals|
    ensures GoalSound(s.goals[k], IterationsOf(s.iterations, s.goals[k].id))
  {
    hide GoalSound;
  }

  lemma UpdateSound(g: Goal, its: seq<Iteration>, status: Status, reason: string, now: string, g': Goal)
    requires GoalSound(g, its) && (status == Complete ==> MayComplete(g, its, reason))
    requires g'.status == status && g'.completedAt == if status == Complete then Some(now) else None
    requires g'.evidence == if status == Complete && !Verified(g.evidence) &&
      !Verified(Gathered(its)) then g.evidence + [Skip(reason, now)] else g.evidence
    ensures GoalSound(g', its)
  {
    hide Verified, Skipped, Gathered, Blank, Skip;
    VerifiedGrows(g.evidence, [Skip(reason, now)]);
    if !Blank(reason) { SkipCounts(g.evidence, reason, now); }
  }

  lemma UpdateKeeps(s: Store, r: Request, m: Moment)
    requires Inv(s) && r.Update?
    ensures Inv(Step(s, r, m).store)
  {
    hide Trim, GoalSound, Inv, Verified, Gathered, Skip, MayComplete;
    var at := Position(s.goals, r.goal);
    var t := Step(s, r, m).store;
    if at.Some? && t != s {
      var k, its := at.value, IterationsOf(s.iterations, r.goal);
      SoundAt(s, k);
      UpdateSound(s.goals[k], its, r.status, r.reason, m.now, t.goals[k]);
      UpdateReplaces(s, k, t.goals[k]);
      assert t == s.(goals := s.goals[k := t.goals[k]]);
    }
  }

  lemma UpdateReplaces(s: Store, k: nat, g: Goal)
    requires Inv(s) && k < |s.goals| && g.id == s.goals[k].id && GoalSound(g, IterationsOf(s.iterations, g.id))
    ensures Inv(s.(goals := s.goals[k := g]))
  {
    hide GoalSound;
    var t := s.(goals := s.goals[k := g]);
    forall j | 0 <= j < |t.goals| ensures GoalSound(t.goals[j], IterationsOf(t.iterations, t.goals[j].id)) {
      if j != k { assert t.goals[j] == s.goals[j]; }
    }
    SameIds(s.goals, k, g);
  }

  lemma StepKeeps(s: Store, r: Request, m: Moment)
    requires Inv(s)
    ensures Inv(Step(s, r, m).store)
  {
    hide Inv, Step;
    match r
    case Create(_, _, _) => CreateKeeps(s, r, m);
    case Append(_, _, _, _) => AppendKeeps(s, r, m);
    case Update(_, _, _) => UpdateKeeps(s, r, m);
  }

  lemma CreateGrows(s: Store, g: Goal)
    requires g.id !in Ids(s.goals)
    ensures Grows(s, Store(s.goals + [g], s.iterations[g.id := []])) && Grows(s, s.(goals := s.goals + [g]))
  {
    forall k | 0 <= k < |s.goals|
      ensures s.goals[k].id != g.id { assert s.goals[k] in s.goals && s.goals[k].id in Ids(s.goals); }
  }

  lemma ReplaceGrows(s: Store, k: nat, g: Goal, its: seq<Iteration>)
    requires k < |s.goals|
    requires var was := s.goals[k];
      g == was.(status := g.status, evidence := g.evidence, updatedAt := g.updatedAt, completedAt := g.completedAt)
    requires Prefix(s.goals[k].evidence, g.evidence) && Prefix(IterationsOf(s.iterations, g.id), its)
    ensures Grows(s, Store(s.goals[k := g], s.iterations[g.id := its]))
    ensures Grows(s, s.(goals := s.goals[k := g])) && Grows(s, s.(iterations := s.iterations[g.id := its]))
  {
  }

  /** Every step only adds to what is recorded. */
  lemma StepGrows(s: Store, r: Request, m: Moment)
    requires Inv(s)
    ensures Grows(s, Step(s, r, m).store)
  {
    hide Trim, FreshId, NormalizedAll, Inv, Verified, Gathered, IterationId, Skip, MayComplete, Grows;
    var t := Step(s, r, m).store;
    GrowsSame(s);
    if t != s {
      if r.Create? {
        CreateGrows(s, t.goals[|s.goals|]);
      } else {
        var k := Position(s.goals, r.goal).value;
        ReplaceGrows(s, k, t.goals[k], IterationsOf(t.iterations, r.goal));
        assert s.goals[k := s.goals[k]] == s.goals;
      }
    }
  }

  datatype Event = Event(request: Request, moment: Moment)

  function After(s: Store, run: seq<Event>): Store {
    if run == [] then s else Step(After(s, run[..|run| - 1]), run[|run| - 1].request, run[|run| - 1].moment).store
  }

  function Empty(): Store { Store([], map[]) }

  /** After any run of creates, appends and updates from an empty workspace, refused ones
    * included, the gate has held. */
  lemma {:induction false} RunKeeps(run: seq<Event>)
    ensures Inv(After(Empty(), run))
    decreases |run|
  {
    hide Step;
    if run != [] {
      RunKeeps(run[..|run| - 1]);
      StepKeeps(After(Empty(), run[..|run| - 1]), run[|run| - 1].request, run[|run| - 1].moment);
    }
  }

  lemma GrowsTransitive(a: Store, b: Store, c: Store)
    requires Grows(a, b) && Grows(b, c)
    ensures Grows(a, c)
  {
    hide IterationsOf;
    forall k | 0 <= k < |a.goals|
      ensures Prefix(a.goals[k].evidence, c.goals[k].evidence)
      ensures Prefix(IterationsOf(a.iterations, a.goals[k].id), IterationsOf(c.iterations, a.goals[k].id))
    {
      PrefixTransitive(a.goals[k].evidence, b.goals[k].evidence, c.goals[k].evidence);
      PrefixTransitive(IterationsOf(a.iterations, a.goals[k].id), IterationsOf(b.iterations, a.goals[k].id),
        IterationsOf(c.iterations, a.goals[k].id));
    }
  }

  lemma PrefixTransitive<T>(a: seq<T>, b: seq<T>, c: seq<T>)
    requires Prefix(a, b) && Prefix(b, c)
    ensures Prefix(a, c)
  {
    assert c[..|a|] == c[..|b|][..|a|];
  }

  /** From any moment of a run to any later one, nothing recorded is lost. */
  lemma {:induction false} RunGrows(run: seq<Event>, k: nat)
    requires k <= |run|
    ensures Grows(After(Empty(), run[..k]), After(Empty(), run))
    decreases |run|
  {
    hide Step, Grows, Inv;
    if k == |run| {
      assert run[..k] == run;
      GrowsSame(After(Empty(), run));
    } else {
      var init := run[..|run| - 1];
      RunGrows(init, k);
      assert init[..k] == run[..k];
      RunKeeps(init);
      StepGrows(After(Empty(), init), run[|run| - 1].request, run[|run| - 1].moment);
      GrowsTransitive(After(Empty(), run[..k]), After(Empty(), init), After(Empty(), run));
    }
  }

  lemma GrowsSame(s: Store)
    ensures Grows(s, s)
  {
  }

  /** A completion is refused by the gate exactly when the goal is there, is not complete yet, has
    * no verification among its own evidence and its iterations', and no reason is given. */
  lemma GateIsExact(run: seq<Event>, id: string, reason: string, m: Moment)
    ensures var s := After(Empty(), run);
      var at := Position(s.goals, id);
      Step(s, Update(id, Complete, reason), m).outcome == Refused(CompletionBlocked) <==>
        && at.Some? && s.goals[at.value].status != Complete
        && !Verified(s.goals[at.value].evidence) && !Verified(Gathered(IterationsOf(s.iterations, id)))
        && Blank(reason)
  {
    hide After, Verified, Blank, Gathered, Skip;
  }

  /** A complete goal, in every run, whatever writes failed: its evidence verifies, or an
    * iteration's, or it was skipped with a reason. */
  lemma CompleteIsBacked(run: seq<Event>, k: nat)
    requires k < |After(Empty(), run).goals|
    ensures var s := After(Empty(), run);
      var g := s.goals[k];
      && (g.completedAt.Some? <==> g.status == Complete)
      && (g.status == Complete ==>
        Verified(g.evidence) || Verified(Gathered(IterationsOf(s.iterations, g.id))) || Skipped(g.evidence))
  {
    hide After, Verified, Skipped, Gathered, Inv;
    RunKeeps(run);
    SoundAt(After(Empty(), run), k);
  }

  // ---- runs whose writes all succeed -------------------------------------------------------------------

  /** A goal's evidence holds all that its iterations brought. */
  ghost predicate Holds(s: Store) {
    forall k, e :: 0 <= k < |s.goals| && e in Gathered(IterationsOf(s.iterations, s.goals[k].id)) ==>
      e in s.goals[k].evidence
  }

  lemma {:induction false} WholeRunsHold(run: seq<Event>)
    requires forall k :: 0 <= k < |run| ==> run[k].moment.writes >= 3
    ensures Holds(After(Empty(), run))
    decreases |run|
  {
    hide Step, Holds, Inv;
    if run == [] {
      NothingHolds();
    } else {
      var init, last := run[..|run| - 1], run[|run| - 1];
      WholeRunsHold(init);
      RunKeeps(init);
      StepHolds(After(Empty(), init), last.request, last.moment);
    }
  }

  lemma NothingHolds() ensures Holds(Empty()) {}

  lemma StepHolds(s: Store, r: Request, m: Moment)
    requires Holds(s) && Inv(s) && m.writes >= 3
    ensures Holds(Step(s, r, m).store)
  {
    hide Trim, FreshId, NormalizedAll, GoalSound, Verified, IterationId, Skip, MayComplete, Gathered;
    var t := Step(s, r, m).store;
    if t != s {
      if r.Create? {
        CreatedHolds(s, t.goals[|s.goals|]);
      } else {
        var k := Position(s.goals, r.goal).value;
        if r.Append? {
          var its := IterationsOf(s.iterations, r.goal);
          GatheredSnoc(its, IterationsOf(t.iterations, r.goal)[|its|]);
        }
        ReplacedHolds(s, k, t.goals[k], IterationsOf(t.iterations, r.goal));
        assert t == Store(s.goals[k := t.goals[k]], t.iterations);
      }
    }
  }

  lemma CreatedHolds(s: Store, g: Goal)
    requires Holds(s) && g.id !in Ids(s.goals)
    ensures Holds(Store(s.goals + [g], s.iterations[g.id := []]))
  {
    assert Gathered([]) == [];
    hide Gathered;
    forall k | 0 <= k < |s.goals| ensures s.goals[k].id != g.id {
      assert s.goals[k] in s.goals && s.goals[k].id in Ids(s.goals);
    }
  }

  lemma ReplacedHolds(s: Store, k: nat, g: Goal, its: seq<Iteration>)
    requires Holds(s) && DistinctIds(s.goals) && k < |s.goals| && g.id == s.goals[k].id
    requires forall e :: e in Gathered(its) ==> e in g.evidence
    ensures Holds(Store(s.goals[k := g], s.iterations[g.id := its]))
    ensures its == IterationsOf(s.iterations, g.id) ==> Holds(s.(goals := s.goals[k := g]))
  {
    hide Gathered;
  }

  /** A write that fails between the two files: the evidence is on the iteration, not on the goal,
    * and still opens the gate. */
  lemma SplitWrite()
    ensures var m := Moment("now", "c", "g", 3);
      var test := Evidence("test", "", "", "", "", "", "", "now");
      var run := [Event(Create("t", "o", true), m), Event(Append("g", "did it", [test], true), m.(writes := 1))];
      var s := After(Empty(), run);
      && |s.goals| == 1 && !Verified(s.goals[0].evidence) && !Holds(s)
      && Step(s, Update("g", Complete, ""), m).outcome == Done
  {
    var m := Moment("now", "c", "g", 3);
    var test := Evidence("test", "", "", "", "", "", "", "now");
    var run := [Event(Create("t", "o", true), m), Event(Append("g", "did it", [test], true), m.(writes := 1))];
    var g := Goal("g", "t", "o", Draft, [], "now", "now", None);
    WitnessCreates(m);
    TestVerifies(test);
    SplitAppend(g, test, m.(writes := 1));
    hide Created, Appended, IsVerification, Trim, Normalized;
    assert run[..1] == [run[0]] && run[..1][..0] == [] && After(Empty(), []) == Empty();
    var s := After(Empty(), run);
    assert After(Empty(), run[..1]) == Store([g], map["g" := []]);
    SplitOpens(s, g, m);
  }

  lemma TestVerifies(e: Evidence)
    requires e.kind == "test"
    ensures IsVerification(e)
  {
    TrimSame("test");
    hide Trim;
    assert Lower("test") == "test";
  }

  lemma SplitAppend(g: Goal, test: Evidence, m: Moment)
    requires g.id == "g" && m.writes == 1 && IsVerification(test)
    ensures var t := Appended(Store([g], map["g" := []]), Append("g", "did it", [test], true), m).store;
      && t.goals == [g] && "g" in t.iterations && |t.iterations["g"]| == 1
      && t.iterations["g"][0].evidence == [Normalized(test, m.now)] && IsVerification(Normalized(test, m.now))
  {
    NormalizedVerifies(test, m.now);
    hide Trim, IsVerification, Normalized, IterationId;
    assert Position([g], "g") == Some(0);
    assert NormalizedAll([test], m.now) == [Normalized(test, m.now)];
  }

  lemma SplitOpens(s: Store, g: Goal, m: Moment)
    requires s.goals == [g] && g.id == "g" && g.evidence == [] && m.writes >= 2
    requires "g" in s.iterations && |s.iterations["g"]| == 1 && |s.iterations["g"][0].evidence| == 1
    requires IsVerification(s.iterations["g"][0].evidence[0])
    ensures !Verified(g.evidence) && !Holds(s) && Step(s, Update("g", Complete, ""), m).outcome == Done
  {
    hide IsVerification, Trim, Skip;
    var its := s.iterations["g"];
    assert Position(s.goals, "g") == Some(0) && IterationsOf(s.iterations, "g") == its;
    assert its[..0] == [] && Gathered(its) == [] + its[0].evidence == its[0].evidence;
    assert Gathered(its)[0] in Gathered(its);
  }

  // ---- blank skips ------------------------------------------------------------------------------------

  /** A completion leaves a skip record without a reason exactly when its goals are written, it
    * repeats one on a goal that was skipped before, and it gives no reason this time. */
  lemma BlankSkipExactly(run: seq<Event>, id: string, reason: string, m: Moment)
    ensures var s := After(Empty(), run);
      var t := Step(s, Update(id, Complete, reason), m).store;
      var at := Position(s.goals, id);
      (exists k :: 0 <= k < |s.goals| && LeavesBlank(s, t, k, m)) <==>
        && m.writes >= 1 && at.Some? && s.goals[at.value].status == Complete
        && !Verified(s.goals[at.value].evidence) && !Verified(Gathered(IterationsOf(s.iterations, id)))
        && Blank(reason)
  {
    hide After, Verified, Gathered, Trim;
    var s := After(Empty(), run);
    var r := Update(id, Complete, reason);
    var t := Step(s, r, m).store;
    NothingTrims();
    var at := Position(s.goals, id);
    if at.Some? {
      var g := s.goals[at.value];
      LastTells(g.evidence, Skip(reason, m.now), Skip("", m.now));
      if t.goals[at.value].evidence == g.evidence + [Skip("", m.now)] { assert LeavesBlank(s, t, at.value, m); }
    }
    forall k | 0 <= k < |s.goals| && t.goals[k] == s.goals[k] ensures !LeavesBlank(s, t, k, m) {
      assert |s.goals[k].evidence + [Skip("", m.now)]| != |s.goals[k].evidence|;
    }
  }

  /** A skip record without a reason was added to the goal. */
  ghost predicate LeavesBlank(s: Store, t: Store, k: nat, m: Moment)
    requires k < |s.goals|
  {
    k < |t.goals| && t.goals[k].evidence == s.goals[k].evidence + [Skip("", m.now)]
  }

  lemma NothingTrims() ensures Trim("") == "" {}

  lemma LastTells(es: seq<Evidence>, a: Evidence, b: Evidence)
    ensures es + [a] == es + [b] <==> a == b
  {
    assert (es + [a])[|es|] == a && (es + [b])[|es|] == b;
  }

  // ---- a run that leaves one -------------------------------------------------------------------------

  lemma TrimSame(s: string)
    requires s != "" && !White(s[0]) && !White(s[|s| - 1])
    ensures Trim(s) == s && !Blank(s)
  {
  }

  /** A skip record is no verification. */
  lemma SkipIsNoVerification(reason: string, now: string)
    ensures !IsVerification(Skip(reason, now))
  {
    assert SKIP_KIND[0] == 'v' && SKIP_KIND[16] == 'p' && |SKIP_KIND| == 17;
    TrimSame(SKIP_KIND);
    NothingTrims();
    hide Trim;
    assert |Lower(Trim(SKIP_KIND))| == 17;
  }

  function Witness(): (r: seq<Event>)
    ensures |r| == 2
  {
    var m := Moment("now", "c", "g", 3);
    [Event(Create("t", "o", true), m), Event(Update("g", Complete, "why"), m)]
  }

  /** Creating a goal and completing it with a reason. */
  lemma WitnessSkips()
    ensures After(Empty(), Witness())
      == Store([Goal("g", "t", "o", Complete, [Skip("why", "now")], "now", "now", Some("now"))], map["g" := []])
  {
    hide Trim, Skip, IsVerification, Created, Updated;
    var m := Moment("now", "c", "g", 3);
    var run := Witness();
    var g := Goal("g", "t", "o", Draft, [], "now", "now", None);
    var created := Store([g], map["g" := []]);
    assert run[..1] == [run[0]] && run[..1][..0] == [];
    assert After(Empty(), []) == Empty();
    WitnessCreates(m);
    assert After(Empty(), run[..1]) == created;
    WitnessCompletes(created, g, m);
  }

  lemma WitnessCreates(m: Moment)
    requires m == Moment("now", "c", "g", 3)
    ensures Created(Empty(), Create("t", "o", true), m).store
      == Store([Goal("g", "t", "o", Draft, [], "now", "now", None)], map["g" := []])
  {
    TrimSame("t");
    TrimSame("o");
    hide Trim;
    assert FreshId(Ids([]), "g", "c") == "g";
  }

  lemma WitnessCompletes(s: Store, g: Goal, m: Moment)
    requires m.writes >= 1
    requires s == Store([g], map["g" := []]) && g.id == "g" && g.status == Draft && g.evidence == []
    ensures Updated(s, Update("g", Complete, "why"), m).store
      == var done := g.(status := Complete, evidence := [Skip("why", m.now)], updatedAt := m.now);
         Store([done.(completedAt := Some(m.now))], s.iterations)
  {
    TrimSame("why");
    hide Trim, Skip, IsVerification;
    assert Position(s.goals, "g") == Some(0);
    assert [] + [Skip("why", m.now)] == [Skip("why", m.now)];
  }

  /** And completing it again without one: the update is done, and leaves a blank record. */
  lemma BlankSkipHappens()
    ensures var s := After(Empty(), Witness());
      var r := Step(s, Update("g", Complete, ""), Moment("now", "c", "g", 3));
      && r.outcome == Done && |s.goals| == 1 == |r.store.goals|
      && r.store.goals[0].evidence == s.goals[0].evidence + [Skip("", "now")] && Blank(Skip("", "now").notes)
  {
    WitnessSkips();
    SkipIsNoVerification("why", "now");
    NothingTrims();
    hide After, Trim, IsVerification;
    var s := After(Empty(), Witness());
    assert Position(s.goals, "g") == Some(0);
    assert !Verified(s.goals[0].evidence);
    assert !Verified(Gathered([]));
  }
}
