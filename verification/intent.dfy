/** Batched yes/no classification under one budget of provider calls and bytes.
  *
  * `wire` gives the length of a serialized request, or nothing when it cannot be serialized.
  * The provider may answer each call as it likes.
  */
module Intent {
  import opened Base
  import opened Text

  const MAX_CANDIDATE_FILES: nat := 32
  const MAX_DECLARATIONS: nat := 64
  const MAX_EXCERPT_BYTES: nat := 8192
  const MAX_BATCH_BYTES: nat := 65536
  const MAX_PROVIDER_REQUESTS: nat := 2
  const MAX_PROVIDER_BYTES: nat := 131072

  datatype Kind = File | Declaration
  datatype Candidate = Candidate(id: string, kind: Kind, excerpt: string)
  datatype Question = Question(id: string, text: string)

  /** A float: NaN and the infinities are one case, no decision may hold them. */
  datatype Float = Finite(value: real) | NotFinite

  datatype Decision = Decision(question: string, probabilities: map<string, Float>)

  datatype Error =
    | InvalidQuestion | QuestionTooLarge | InvalidCandidates | QuestionMismatch
    | CandidateMismatch | InvalidProbability | BudgetLimited | Fixture(text: string)

  datatype Answer = Ok(decision: Decision) | Err(error: Error)

  type Wire = (Question, seq<Candidate>) -> Option<nat>

  /** What a provider answers to its n-th call. */
  type Provider = (nat, Question, seq<Candidate>) -> Answer

  // ---- the bounds of a request and of a decision -------------------------------------------

  function Ids(cs: seq<Candidate>): set<string> { set c | c in cs :: c.id }

  ghost predicate Distinct(cs: seq<Candidate>) { forall i, j :: 0 <= i < j < |cs| ==> cs[i].id != cs[j].id }

  function Count(cs: seq<Candidate>, kind: Kind): nat {
    if cs == [] then 0 else Count(cs[..|cs| - 1], kind) + if cs[|cs| - 1].kind == kind then 1 else 0
  }

  function BatchBytes(q: Question, cs: seq<Candidate>): nat {
    if cs == [] then ByteLen(q.id) + ByteLen(q.text)
    else BatchBytes(q, cs[..|cs| - 1]) + ByteLen(cs[|cs| - 1].id) + ByteLen(cs[|cs| - 1].excerpt)
  }

  predicate Proper(c: Candidate) { c.id != "" && ByteLen(c.excerpt) <= MAX_EXCERPT_BYTES }

  predicate ProperQuestion(q: Question) { q.id != "" && !Blank(q.text) }

  /** A request within every bound. */
  ghost predicate Bounded(q: Question, cs: seq<Candidate>, wire: Wire) {
    && ProperQuestion(q) && ByteLen(q.id) + ByteLen(q.text) <= MAX_BATCH_BYTES
    && |cs| <= MAX_CANDIDATE_FILES + MAX_DECLARATIONS
    && (forall k :: 0 <= k < |cs| ==> Proper(cs[k]))
    && Count(cs, File) <= MAX_CANDIDATE_FILES && Count(cs, Declaration) <= MAX_DECLARATIONS
    && BatchBytes(q, cs) <= MAX_BATCH_BYTES
    && wire(q, cs).Some? && wire(q, cs).value <= MAX_BATCH_BYTES
    && Distinct(cs)
  }

  method AllDistinct(cs: seq<Candidate>) returns (ok: bool)
    ensures ok <==> Distinct(cs)
  {
    var seen: set<string> := {};
    for k := 0 to |cs|
      invariant Distinct(cs[..k])
      invariant forall x :: x in seen <==> exists j :: 0 <= j < k && cs[j].id == x
    {
      if cs[k].id in seen {
        var j :| 0 <= j < k && cs[j].id == cs[k].id;
        return false;
      }
      seen := seen + {cs[k].id};
    }
    assert cs[..|cs|] == cs;
    return true;
  }

  /** Check a request; the first bound it breaks is reported, and there is one exactly when it
    * is not within every bound. */
  method ValidateRequest(q: Question, cs: seq<Candidate>, wire: Wire) returns (e: Option<Error>)
    ensures e.None? <==> Bounded(q, cs, wire)
    ensures e == Some(InvalidQuestion) <==> !ProperQuestion(q)
    ensures e == Some(QuestionTooLarge) <==> ProperQuestion(q) && ByteLen(q.id) + ByteLen(q.text) > MAX_BATCH_BYTES
    ensures e.Some? ==> e.value in {InvalidQuestion, QuestionTooLarge, InvalidCandidates}
  {
    hide ByteLen, Blank, Count, BatchBytes, Distinct;
    if q.id == "" || Blank(q.text) { return Some(InvalidQuestion); }
    if ByteLen(q.id) + ByteLen(q.text) > MAX_BATCH_BYTES { return Some(QuestionTooLarge); }
    if |cs| > MAX_CANDIDATE_FILES + MAX_DECLARATIONS { return Some(InvalidCandidates); }
    for k := 0 to |cs|
      invariant forall j :: 0 <= j < k ==> Proper(cs[j])
    {
      if !Proper(cs[k]) { return Some(InvalidCandidates); }
    }
    if Count(cs, File) > MAX_CANDIDATE_FILES || Count(cs, Declaration) > MAX_DECLARATIONS ||
      BatchBytes(q, cs) > MAX_BATCH_BYTES {
      return Some(InvalidCandidates);
    }
    if wire(q, cs).None? || wire(q, cs).value > MAX_BATCH_BYTES { return Some(InvalidCandidates); }
    var ok := AllDistinct(cs);
    return if ok then None else Some(InvalidCandidates);
  }

  predicate Probability(f: Float) { f.Finite? && 0.0 <= f.value <= 1.0 }

  /** A decision answers exactly the candidates asked about, with probabilities. */
  ghost predicate Answers(q: Question, cs: seq<Candidate>, d: Decision) {
    && d.question == q.id
    && d.probabilities.Keys == Ids(cs)
    && forall x :: x in d.probabilities ==> Probability(d.probabilities[x])
  }

  function ValidateDecision(q: Question, cs: seq<Candidate>, d: Decision): Option<Error> {
    if d.question != q.id then Some(QuestionMismatch)
    else if |d.probabilities| != |cs| then Some(CandidateMismatch)
    else if exists k :: 0 <= k < |cs| && cs[k].id !in d.probabilities then Some(CandidateMismatch)
    else if exists x :: x in d.probabilities && !Probability(d.probabilities[x]) then Some(InvalidProbability)
    else None
  }

  lemma {:induction false} IdsCount(cs: seq<Candidate>)
    requires Distinct(cs)
    ensures |Ids(cs)| == |cs|
    decreases |cs|
  {
    if cs != [] {
      var init, last := cs[..|cs| - 1], cs[|cs| - 1];
      IdsCount(init);
      assert cs == init + [last];
      assert Ids(cs) == Ids(init) + {last.id};
      assert forall k :: 0 <= k < |init| ==> init[k] == cs[k];
    }
  }

  lemma SameSizeSubset(a: set<string>, b: set<string>)
    requires a <= b && |a| == |b|
    ensures a == b
  {
    assert b == a + (b - a) && |b - a| == 0;
  }

  /** The count and membership tests together leave no room for an extra or a missing id. */
  lemma DecisionIsExact(q: Question, cs: seq<Candidate>, d: Decision)
    requires Distinct(cs)
    ensures ValidateDecision(q, cs, d).None? <==> Answers(q, cs, d)
  {
    IdsCount(cs);
    assert |d.probabilities| == |d.probabilities.Keys|;
    if ValidateDecision(q, cs, d).None? {
      assert Ids(cs) <= d.probabilities.Keys;
      SameSizeSubset(Ids(cs), d.probabilities.Keys);
    }
    if Answers(q, cs, d) {
      assert forall k :: 0 <= k < |cs| ==> cs[k] in cs && cs[k].id in Ids(cs);
    }
  }

  /** Ask the provider about one batch, checked on both sides. */
  method Decide(provider: Provider, n: nat, q: Question, cs: seq<Candidate>, wire: Wire) returns (a: Answer)
    ensures a.Ok? ==> Bounded(q, cs, wire) && Answers(q, cs, a.decision) && provider(n, q, cs) == a
    ensures a.Err? && Bounded(q, cs, wire) ==>
      match provider(n, q, cs)
      case Err(e) => a == Err(e)
      case Ok(d) => !Answers(q, cs, d) && a.error in {QuestionMismatch, CandidateMismatch, InvalidProbability}
  {
    hide Bounded, ValidateDecision, Answers;
    var bad := ValidateRequest(q, cs, wire);
    if bad.Some? { return Err(bad.value); }
    BoundedIsDistinct(q, cs, wire);
    a := provider(n, q, cs);
    if a.Ok? {
      DecisionIsExact(q, cs, a.decision);
      DecisionErrors(q, cs, a.decision);
      var wrong := ValidateDecision(q, cs, a.decision);
      if wrong.Some? { return Err(wrong.value); }
    }
  }

  lemma DecisionErrors(q: Question, cs: seq<Candidate>, d: Decision)
    ensures var e := ValidateDecision(q, cs, d); e.Some? ==>
      e.value in {QuestionMismatch, CandidateMismatch, InvalidProbability}
  {
  }

  lemma BoundedIsDistinct(q: Question, cs: seq<Candidate>, wire: Wire)
    requires Bounded(q, cs, wire)
    ensures Distinct(cs)
  {
    hide Distinct;
  }

  // ---- the budget of a query -----------------------------------------------------------------

  /** One query's budget, shared by its stages. */
  class QueryBudget {
    var requests: nat
    var bytes: nat

    ghost predicate Valid()
      reads this
    {
      requests <= MAX_PROVIDER_REQUESTS && bytes <= MAX_PROVIDER_BYTES
    }

    constructor ()
      ensures Valid() && requests == 0 && bytes == 0
    {
      requests, bytes := 0, 0;
    }

    /** Set aside one call of some size, or leave the budget as it is. */
    method Reserve(size: nat) returns (ok: bool)
      requires Valid()
      modifies this
      ensures Valid()
      ensures ok <==> old(requests) < MAX_PROVIDER_REQUESTS && old(bytes) + size <= MAX_PROVIDER_BYTES
      ensures requests == old(requests) + (if ok then 1 else 0) && bytes == old(bytes) + (if ok then size else 0)
    {
      if requests >= MAX_PROVIDER_REQUESTS || Min(USIZE_MAX, bytes + size) > MAX_PROVIDER_BYTES { return false; }
      requests, bytes := requests + 1, bytes + size;
      return true;
    }
  }

  // ---- cutting the candidates into batches ------------------------------------------------------

  function Flat(bs: seq<seq<Candidate>>): seq<Candidate> {
    if bs == [] then [] else Flat(bs[..|bs| - 1]) + bs[|bs| - 1]
  }

  lemma FlatSnoc(bs: seq<seq<Candidate>>, b: seq<Candidate>)
    ensures Flat(bs + [b]) == Flat(bs) + b
  {
    assert (bs + [b])[..|bs|] == bs;
  }

  /** The candidates of a list that are kept, in the list's order. */
  function Among(cs: seq<Candidate>, kept: set<Candidate>): seq<Candidate> {
    if cs == [] then [] else Among(cs[..|cs| - 1], kept) + if cs[|cs| - 1] in kept then [cs[|cs| - 1]] else []
  }

  function Members(cs: seq<Candidate>): set<Candidate> { set c | c in cs }

  /** A longer request takes no fewer bytes on the wire, as with any serializer of lists. */
  ghost predicate Grows(q: Question, wire: Wire) {
    forall b: seq<Candidate>, c: Candidate :: wire(q, b + [c]).Some? ==>
      wire(q, [c]).Some? && wire(q, [c]).value <= wire(q, b + [c]).value
  }

  /** The batches, one after another, are the candidates in order without those that were
    * dropped; each batch is within every bound, and no candidate was dropped that a request of its
    * own could hold. With a wire that grows, the dropped ones are exactly those. */
  ghost predicate Cut(q: Question, cs: seq<Candidate>, wire: Wire, bs: seq<seq<Candidate>>, dropped: bool) {
    && (forall k :: 0 <= k < |bs| ==> bs[k] != [] && Bounded(q, bs[k], wire))
    && Flat(bs) == Among(cs, Members(Flat(bs)))
    && Ids(Flat(bs)) <= Ids(cs)
    && (dropped <==> Flat(bs) != cs)
    && (forall c :: c in cs && c !in Flat(bs) ==> !Bounded(q, [c], wire))
    && (Grows(q, wire) ==> forall c :: c in Flat(bs) ==> Bounded(q, [c], wire))
  }

  /** The cut so far: closed batches and the open one. */
  ghost predicate Cutting(
    q: Question, cs: seq<Candidate>, wire: Wire, bs: seq<seq<Candidate>>, batch: seq<Candidate>, dropped: bool)
  {
    && (batch != [] ==> Bounded(q, batch, wire))
    && (forall k :: 0 <= k < |bs| ==> bs[k] != [] && Bounded(q, bs[k], wire))
    && Within(cs, Flat(bs) + batch, dropped)
    && Alone(q, cs, wire, Flat(bs) + batch)
  }

  /** A batch is a run of the candidates that the one after it could not join. */
  ghost predicate ClosedRun(q: Question, cs: seq<Candidate>, wire: Wire, b: seq<Candidate>) {
    exists i, j :: 0 <= i <= j < |cs| && cs[i..j] == b && !Bounded(q, b + [cs[j]], wire)
  }

  /** Or the run that ends the list. */
  ghost predicate LastRun(cs: seq<Candidate>, b: seq<Candidate>) {
    |b| <= |cs| && cs[|cs| - |b|..] == b
  }

  /** No batch could have taken one candidate more. */
  ghost predicate Greedy(q: Question, cs: seq<Candidate>, wire: Wire, bs: seq<seq<Candidate>>) {
    forall k :: 0 <= k < |bs| ==> ClosedRun(q, cs, wire, bs[k]) || (k == |bs| - 1 && LastRun(cs, bs[k]))
  }

  ghost predicate Running(
    q: Question, cs: seq<Candidate>, wire: Wire, bs: seq<seq<Candidate>>, batch: seq<Candidate>)
  {
    LastRun(cs, batch) && forall k :: 0 <= k < |bs| ==> ClosedRun(q, cs, wire, bs[k])
  }

  lemma ClosedStays(q: Question, cs: seq<Candidate>, wire: Wire, b: seq<Candidate>, c: Candidate)
    requires ClosedRun(q, cs, wire, b)
    ensures ClosedRun(q, cs + [c], wire, b)
  {
    hide Bounded;
    var i, j :| 0 <= i <= j < |cs| && cs[i..j] == b && !Bounded(q, b + [cs[j]], wire);
    assert (cs + [c])[i..j] == b && (cs + [c])[j] == cs[j];
  }

  /** The open batch takes a candidate, or is closed by it. */
  lemma RunStep(
    q: Question, cs: seq<Candidate>, wire: Wire, bs: seq<seq<Candidate>>, batch: seq<Candidate>, c: Candidate)
    requires Running(q, cs, wire, bs, batch)
    ensures Running(q, cs + [c], wire, bs, batch + [c])
    ensures !Bounded(q, batch + [c], wire) ==>
      var closed := if batch != [] then bs + [batch] else bs;
      Running(q, cs + [c], wire, closed, [c]) && Running(q, cs + [c], wire, closed, [])
  {
    hide Bounded, ClosedRun;
    var all := cs + [c];
    forall k | 0 <= k < |bs| ensures ClosedRun(q, all, wire, bs[k]) { ClosedStays(q, cs, wire, bs[k], c); }
    if !Bounded(q, batch + [c], wire) { RunCloses(q, cs, wire, batch, c); }
    assert all[|all| - (|batch| + 1)..] == batch + [c] && all[|all| - 1..] == [c] && all[|all|..] == [];
  }

  lemma RunCloses(q: Question, cs: seq<Candidate>, wire: Wire, batch: seq<Candidate>, c: Candidate)
    requires LastRun(cs, batch) && !Bounded(q, batch + [c], wire)
    ensures ClosedRun(q, cs + [c], wire, batch)
  {
    hide Bounded;
    var i, j := |cs| - |batch|, |cs|;
    assert (cs + [c])[i..j] == batch && (cs + [c])[j] == c;
  }

  /** What a request of its own says of each candidate, kept or not. */
  ghost predicate Alone(q: Question, cs: seq<Candidate>, wire: Wire, kept: seq<Candidate>) {
    && (forall c :: c in cs && c !in kept ==> !Bounded(q, [c], wire))
    && (Grows(q, wire) ==> forall c :: c in kept ==> Bounded(q, [c], wire))
  }

  /** What is kept of a list: the rest of it in order once, and whether anything was dropped. */
  ghost predicate Within(cs: seq<Candidate>, kept: seq<Candidate>, dropped: bool) {
    && (forall c :: c in kept ==> c in cs)
    && kept == Among(cs, Members(kept))
    && (dropped <==> kept != cs)
    && |kept| <= |cs|
  }

  lemma {:induction false} AmongSame(cs: seq<Candidate>, a: set<Candidate>, b: set<Candidate>)
    requires forall c :: c in cs ==> (c in a <==> c in b)
    ensures Among(cs, a) == Among(cs, b)
    decreases |cs|
  {
    if cs != [] { AmongSame(cs[..|cs| - 1], a, b); }
  }

  lemma AmongSnoc(cs: seq<Candidate>, c: Candidate, kept: set<Candidate>)
    ensures Among(cs + [c], kept) == Among(cs, kept) + if c in kept then [c] else []
  {
    assert (cs + [c])[..|cs|] == cs;
  }

  lemma WithinTakes(cs: seq<Candidate>, kept: seq<Candidate>, dropped: bool, c: Candidate)
    requires Within(cs, kept, dropped) && c !in cs
    ensures Within(cs + [c], kept + [c], dropped)
  {
    hide Among;
    AmongSame(cs, Members(kept), Members(kept + [c]));
    AmongSnoc(cs, c, Members(kept + [c]));
    if kept + [c] == cs + [c] { assert kept == (kept + [c])[..|kept|] == (cs + [c])[..|cs|] == cs; }
  }

  lemma WithinDrops(cs: seq<Candidate>, kept: seq<Candidate>, dropped: bool, c: Candidate)
    requires Within(cs, kept, dropped) && c !in cs
    ensures Within(cs + [c], kept, true)
  {
    hide Among;
    AmongSnoc(cs, c, Members(kept));
    assert Among(cs, Members(kept)) + [] == kept;
  }

  lemma {:induction false} BytesGrow(q: Question, b: seq<Candidate>, c: Candidate)
    ensures BatchBytes(q, [c]) <= BatchBytes(q, b + [c])
    decreases |b|
  {
    hide ByteLen;
    BytesBase(q, b);
    assert (b + [c])[..|b|] == b && [c][..0] == [];
    assert BatchBytes(q, [c]) == BatchBytes(q, []) + ByteLen(c.id) + ByteLen(c.excerpt);
  }

  lemma {:induction false} BytesBase(q: Question, b: seq<Candidate>)
    ensures BatchBytes(q, []) <= BatchBytes(q, b)
    decreases |b|
  {
    hide ByteLen;
    if b != [] { BytesBase(q, b[..|b| - 1]); }
  }

  /** With a wire that grows, what a batch holds a request of its own could. */
  lemma HeldAlone(q: Question, b: seq<Candidate>, c: Candidate, wire: Wire)
    requires Bounded(q, b + [c], wire) && Grows(q, wire)
    ensures Bounded(q, [c], wire)
  {
    hide ByteLen, BatchBytes, ProperQuestion, Proper;
    BytesGrow(q, b, c);
    assert (b + [c])[|b|] == c;
    assert [c][..0] == [] && Count([], File) == 0 && Count([], Declaration) == 0;
    assert Count([c], File) <= 1 && Count([c], Declaration) <= 1;
  }

  /** Cut the candidates greedily. */
  method CutBatches(q: Question, cs: seq<Candidate>, wire: Wire) returns (bs: seq<seq<Candidate>>, dropped: bool)
    requires Distinct(cs)
    ensures Cut(q, cs, wire, bs, dropped) && Greedy(q, cs, wire, bs)
  {
    hide Bounded, Flat, Within, Alone, Among, ClosedRun;
    var batch: seq<Candidate> := [];
    bs, dropped := [], false;
    NothingCut(q, wire);
    for k := 0 to |cs|
      invariant Cutting(q, cs[..k], wire, bs, batch, dropped) && Running(q, cs[..k], wire, bs, batch)
    {
      hide Bounded, Flat, Within, Cutting, Alone, Among, Running;
      assert cs[..k + 1] == cs[..k] + [cs[k]] && cs[k] !in cs[..k];
      bs, batch, dropped := CutOne(q, cs[..k], wire, bs, batch, dropped, cs[k]);
    }
    assert cs[..|cs|] == cs;
    if batch != [] {
      FlatSnoc(bs, batch);
      bs := bs + [batch];
    } else {
      assert Flat(bs) + batch == Flat(bs);
    }
    WithinIds(q, cs, wire, Flat(bs), dropped);
  }

  lemma NothingWithin()
    ensures Flat([]) == [] && Within([], Flat([]) + [], false)
  {
  }

  lemma NothingCut(q: Question, wire: Wire)
    ensures Cutting(q, [], wire, [], [], false)
  {
    NothingWithin();
  }

  lemma WithinIds(q: Question, cs: seq<Candidate>, wire: Wire, kept: seq<Candidate>, dropped: bool)
    requires Within(cs, kept, dropped) && Alone(q, cs, wire, kept)
    ensures Ids(kept) <= Ids(cs) && kept == Among(cs, Members(kept))
    ensures dropped <==> kept != cs
    ensures forall c :: c in cs && c !in kept ==> !Bounded(q, [c], wire)
    ensures Grows(q, wire) ==> forall c :: c in kept ==> Bounded(q, [c], wire)
  {
    hide Bounded, Among, Grows;
  }

  lemma AloneTakes(q: Question, cs: seq<Candidate>, wire: Wire, kept: seq<Candidate>, b: seq<Candidate>, c: Candidate)
    requires Alone(q, cs, wire, kept) && Bounded(q, b + [c], wire)
    ensures Alone(q, cs + [c], wire, kept + [c])
  {
    if Grows(q, wire) { HeldAlone(q, b, c, wire); }
    hide Bounded, Grows;
  }

  lemma AloneDrops(q: Question, cs: seq<Candidate>, wire: Wire, kept: seq<Candidate>, c: Candidate)
    requires Alone(q, cs, wire, kept) && !Bounded(q, [c], wire)
    ensures Alone(q, cs + [c], wire, kept)
  {
    hide Bounded, Grows;
  }

  method CutOne(
    q: Question, ghost cs: seq<Candidate>, wire: Wire, bs: seq<seq<Candidate>>, batch: seq<Candidate>, dropped: bool,
    c: Candidate)
    returns (bs': seq<seq<Candidate>>, batch': seq<Candidate>, dropped': bool)
    requires Cutting(q, cs, wire, bs, batch, dropped) && Running(q, cs, wire, bs, batch) && c !in cs
    ensures Cutting(q, cs + [c], wire, bs', batch', dropped') && Running(q, cs + [c], wire, bs', batch')
  {
    hide Bounded, Flat, Within, Alone, Running;
    RunStep(q, cs, wire, bs, batch, c);
    var kept := Flat(bs) + batch;
    var proposed := batch + [c];
    assert Flat(bs) + proposed == kept + [c];
    var fits := ValidateRequest(q, proposed, wire);
    if fits.None? {
      WithinTakes(cs, kept, dropped, c);
      AloneTakes(q, cs, wire, kept, batch, c);
      return bs, proposed, dropped;
    }
    bs' := if batch != [] then bs + [batch] else bs;
    FlatSnoc(bs, batch);
    assert batch == [] ==> Flat(bs) == kept;
    assert kept + [] == kept;
    var alone := ValidateRequest(q, [c], wire);
    if alone.None? {
      WithinTakes(cs, kept, dropped, c);
      assert [] + [c] == [c];
      AloneTakes(q, cs, wire, kept, [], c);
      return bs', [c], dropped;
    }
    WithinDrops(cs, kept, dropped, c);
    AloneDrops(q, cs, wire, kept, c);
    return bs', [], true;
  }

  // ---- the stage ---------------------------------------------------------------------------------

  datatype BatchDecision = BatchDecision(probabilities: map<string, Float>, complete: bool, error: Option<Error>)

  /** The provider gave `x` this probability when asked about the batch. */
  ghost predicate GivenBy(provider: Provider, q: Question, b: seq<Candidate>, call: nat, x: string, p: Float) {
    var a := provider(call, q, b);
    a.Ok? && Answers(q, b, a.decision) && x in a.decision.probabilities && a.decision.probabilities[x] == p
  }

  /** It did so in one of the calls a stage made. */
  ghost predicate FromCall(provider: Provider, q: Question, calls: seq<seq<Candidate>>, start: nat, x: string, p: Float)
  {
    exists k :: 0 <= k < |calls| && GivenBy(provider, q, calls[k], start + k, x, p)
  }

  /** Every probability was given by the provider in one of these calls. */
  ghost predicate AllFromCalls(
    provider: Provider, q: Question, calls: seq<seq<Candidate>>, start: nat, ps: map<string, Float>)
  {
    forall x :: x in ps ==> Probability(ps[x]) && FromCall(provider, q, calls, start, x, ps[x])
  }

  ghost predicate Given(
    provider: Provider, q: Question, bs: seq<seq<Candidate>>, start: nat, n: nat, ps: map<string, Float>)
    requires n <= |bs|
  {
    AllFromCalls(provider, q, bs[..n], start, ps) && ps.Keys == Ids(Flat(bs[..n]))
  }

  lemma FromCallGrows(
    provider: Provider, q: Question, calls: seq<seq<Candidate>>, b: seq<Candidate>, start: nat, x: string, p: Float)
    ensures FromCall(provider, q, calls, start, x, p) ==> FromCall(provider, q, calls + [b], start, x, p)
    ensures GivenBy(provider, q, b, start + |calls|, x, p) ==> FromCall(provider, q, calls + [b], start, x, p)
  {
    hide GivenBy;
    assert (calls + [b])[|calls|] == b;
    if FromCall(provider, q, calls, start, x, p) {
      var k :| 0 <= k < |calls| && GivenBy(provider, q, calls[k], start + k, x, p);
      assert (calls + [b])[k] == calls[k];
    }
  }

  lemma AllFromCallsGrow(
    provider: Provider, q: Question, calls: seq<seq<Candidate>>, b: seq<Candidate>, start: nat,
    ps: map<string, Float>)
    requires AllFromCalls(provider, q, calls, start, ps)
    ensures AllFromCalls(provider, q, calls + [b], start, ps)
  {
    hide FromCall;
    forall x | x in ps ensures FromCall(provider, q, calls + [b], start, x, ps[x]) {
      FromCallGrows(provider, q, calls, b, start, x, ps[x]);
    }
  }

  lemma AddDecision(
    provider: Provider, q: Question, calls: seq<seq<Candidate>>, b: seq<Candidate>, start: nat,
    ps: map<string, Float>, d: Decision)
    requires AllFromCalls(provider, q, calls, start, ps)
    requires provider(start + |calls|, q, b) == Ok(d) && Answers(q, b, d)
    ensures AllFromCalls(provider, q, calls + [b], start, ps + d.probabilities)
  {
    hide FromCall;
    AllFromCallsGrow(provider, q, calls, b, start, ps);
    forall x | x in d.probabilities ensures FromCall(provider, q, calls + [b], start, x, d.probabilities[x]) {
      FromCallGrows(provider, q, calls, b, start, x, d.probabilities[x]);
    }
  }

  lemma GivenStep(
    provider: Provider, q: Question, bs: seq<seq<Candidate>>, start: nat, n: nat, ps: map<string, Float>, d: Decision)
    requires n < |bs| && Given(provider, q, bs, start, n, ps)
    requires provider(start + n, q, bs[n]) == Ok(d) && Answers(q, bs[n], d)
    ensures Given(provider, q, bs, start, n + 1, ps + d.probabilities)
  {
    hide Flat, AllFromCalls, Ids;
    assert bs[..n + 1] == bs[..n] + [bs[n]];
    AddDecision(provider, q, bs[..n], bs[n], start, ps, d);
    FlatSnoc(bs[..n], bs[n]);
    IdsConcat(Flat(bs[..n]), bs[n]);
    assert (ps + d.probabilities).Keys == ps.Keys + d.probabilities.Keys;
  }

  lemma IdsConcat(a: seq<Candidate>, b: seq<Candidate>)
    ensures Ids(a + b) == Ids(a) + Ids(b)
  {
    forall x | x in Ids(a) + Ids(b) ensures x in Ids(a + b) {
      var c :| (c in a || c in b) && c.id == x;
      assert c in a + b;
    }
  }

  /** The provider answered the batch within its terms. */
  ghost predicate Answered(provider: Provider, q: Question, b: seq<Candidate>, call: nat) {
    var a := provider(call, q, b);
    a.Ok? && Answers(q, b, a.decision)
  }

  /** A call that spoils the stage: an error other than a question too large, or an answer out
    * of its terms. */
  ghost predicate Spoiled(provider: Provider, q: Question, b: seq<Candidate>, call: nat) {
    !Answered(provider, q, b, call) && provider(call, q, b) != Err(QuestionTooLarge)
  }

  /** How many of the calls were answered: all of them, or all but the last. */
  ghost function Heard(provider: Provider, q: Question, calls: seq<seq<Candidate>>, start: nat): (n: nat)
    ensures n <= |calls|
  {
    if calls == [] || Answered(provider, q, calls[|calls| - 1], start + |calls| - 1) then |calls| else |calls| - 1
  }

  /** What is kept of the answers: nothing after a call that spoiled the stage, whatever its
    * error says of itself, and otherwise exactly what the answered calls gave. */
  ghost predicate Keeps(provider: Provider, q: Question, calls: seq<seq<Candidate>>, start: nat, r: BatchDecision) {
    && (forall k :: 0 <= k < |calls| && Spoiled(provider, q, calls[k], start + k) ==>
          && r.probabilities == map[]
          && (provider(start + k, q, calls[k]).Err? ==> r.error == Some(provider(start + k, q, calls[k]).error)))
    && ((forall k :: 0 <= k < |calls| ==> !Spoiled(provider, q, calls[k], start + k)) ==>
          r.probabilities.Keys == Ids(Flat(calls[..Heard(provider, q, calls, start)])))
  }

  /** The bytes a request takes from the budget. */
  function RequestBytes(q: Question, b: seq<Candidate>, wire: Wire): nat {
    if wire(q, b).Some? then wire(q, b).value else MAX_BATCH_BYTES
  }

  function TotalBytes(q: Question, calls: seq<seq<Candidate>>, wire: Wire): nat {
    if calls == [] then 0 else TotalBytes(q, calls[..|calls| - 1], wire) + RequestBytes(q, calls[|calls| - 1], wire)
  }

  lemma TotalBytesSnoc(q: Question, bs: seq<seq<Candidate>>, k: nat, wire: Wire)
    requires k < |bs|
    ensures TotalBytes(q, bs[..k + 1], wire) == TotalBytes(q, bs[..k], wire) + RequestBytes(q, bs[k], wire)
  {
    assert bs[..k + 1][..k] == bs[..k];
  }

  /** What the stage promises of its answer. */
  ghost predicate Sound(
    provider: Provider, q: Question, cs: seq<Candidate>, start: nat, calls: seq<seq<Candidate>>, r: BatchDecision)
  {
    && (r.complete <==> r.error.None?)
    && (r.complete ==> r.probabilities.Keys == Ids(cs))
    && r.probabilities.Keys <= Ids(cs)
    && AllFromCalls(provider, q, calls, start, r.probabilities)
    && (r.error.Some? && r.error.value != BudgetLimited ==> r.probabilities == map[])
  }

  /** Classify the batches one after another while the budget lasts. A provider failure other
    * than a question too large discards every probability; anything else that stops the stage
    * keeps what earlier batches gave, and is never called complete. */
  method AskBatches(
    provider: Provider, q: Question, wire: Wire, bs: seq<seq<Candidate>>, dropped: bool, budget: QueryBudget,
    ghost cs: seq<Candidate>)
    returns (r: BatchDecision, ghost calls: seq<seq<Candidate>>)
    requires budget.Valid() && Cut(q, cs, wire, bs, dropped)
    modifies budget
    ensures budget.Valid()
    ensures |calls| <= |bs| && calls == bs[..|calls|] && budget.requests == old(budget.requests) + |calls|
    ensures budget.bytes == old(budget.bytes) + TotalBytes(q, calls, wire)
    ensures Sound(provider, q, cs, old(budget.requests), calls, r)
    ensures Keeps(provider, q, calls, old(budget.requests), r)
    ensures r.complete <==> !dropped && calls == bs && forall k :: 0 <= k < |bs| ==>
      Answered(provider, q, bs[k], old(budget.requests) + k)
    ensures |calls| < |bs| ==>
      || budget.requests >= MAX_PROVIDER_REQUESTS
      || budget.bytes + RequestBytes(q, bs[|calls|], wire) > MAX_PROVIDER_BYTES
      || (calls != [] && !Answered(provider, q, calls[|calls| - 1], budget.requests - 1))
  {
    hide Bounded, Flat, Answers, Ids, Keeps, Cut, Given, Sound, TotalBytes, Answered;
    var error: Option<Error> := if dropped then Some(BudgetLimited) else None;
    var ps: map<string, Float> := map[];
    calls := [];
    ghost var start, spent := budget.requests, budget.bytes;
    NothingGiven(provider, q, bs, start);
    NoBytes(q, bs, wire);
    for k := 0 to |bs|
      invariant budget.Valid() && calls == bs[..k] && budget.requests == start + k
      invariant budget.bytes == spent + TotalBytes(q, bs[..k], wire)
      invariant error == if dropped then Some(BudgetLimited) else None
      invariant Given(provider, q, bs, start, k, ps)
      invariant forall j :: 0 <= j < k ==> Answered(provider, q, bs[j], start + j)
    {
      var size := RequestBytes(q, bs[k], wire);
      TotalBytesSnoc(q, bs, k, wire);
      CutAt(q, cs, wire, bs, dropped, k);
      var n := budget.requests;
      var ok := budget.Reserve(size);
      if !ok {
        StoppedIsSound(provider, q, cs, wire, bs, dropped, start, k, ps);
        AllHeard(provider, q, bs, start, k, BatchDecision(ps, false, Some(BudgetLimited)));
        return BatchDecision(ps, false, Some(BudgetLimited)), bs[..k];
      }
      calls := bs[..k + 1];
      var a := Decide(provider, n, q, bs[k], wire);
      match a {
        case Ok(d) =>
          GivenStep(provider, q, bs, start, k, ps, d);
          AnsweredIs(provider, q, bs[k], start + k);
          ps := ps + d.probabilities;
        case Err(e) =>
          AnsweredIs(provider, q, bs[k], start + k);
          if e == QuestionTooLarge {
            StoppedIsSound(provider, q, cs, wire, bs, dropped, start, k, ps);
            MoreCalls(provider, q, cs, start, bs, k, BatchDecision(ps, false, Some(BudgetLimited)));
            LastUnheard(provider, q, bs, start, k, BatchDecision(ps, false, Some(BudgetLimited)));
            return BatchDecision(ps, false, Some(BudgetLimited)), bs[..k + 1];
          }
          LastSpoiled(provider, q, bs, start, k, BatchDecision(map[], false, Some(e)));
          NothingIsSound(provider, q, cs, start, bs[..k + 1], e);
          return BatchDecision(map[], false, Some(e)), bs[..k + 1];
      }
    }
    assert bs[..|bs|] == bs;
    FinishedIsSound(provider, q, cs, wire, bs, dropped, start, ps);
    AllHeard(provider, q, bs, start, |bs|, BatchDecision(ps, !dropped, error));
    return BatchDecision(ps, !dropped, error), bs;
  }

  lemma NothingGiven(provider: Provider, q: Question, bs: seq<seq<Candidate>>, start: nat)
    ensures Given(provider, q, bs, start, 0, map[])
  {
    assert bs[..0] == [];
  }

  lemma NoBytes(q: Question, bs: seq<seq<Candidate>>, wire: Wire)
    ensures bs[..0] == [] && TotalBytes(q, bs[..0], wire) == 0
  {
  }

  lemma AnsweredIs(provider: Provider, q: Question, b: seq<Candidate>, call: nat)
    ensures Answered(provider, q, b, call) <==> provider(call, q, b).Ok? && Answers(q, b, provider(call, q, b).decision)
  {
  }

  lemma AllHeard(provider: Provider, q: Question, bs: seq<seq<Candidate>>, start: nat, k: nat, r: BatchDecision)
    requires k <= |bs| && (forall j :: 0 <= j < k ==> Answered(provider, q, bs[j], start + j))
    requires Given(provider, q, bs, start, k, r.probabilities)
    ensures Keeps(provider, q, bs[..k], start, r)
  {
    hide Answered, Flat, Ids, AllFromCalls;
    assert bs[..k][..k] == bs[..k];
    assert k > 0 ==> bs[..k][k - 1] == bs[k - 1];
  }

  lemma LastUnheard(provider: Provider, q: Question, bs: seq<seq<Candidate>>, start: nat, k: nat, r: BatchDecision)
    requires k < |bs| && (forall j :: 0 <= j < k ==> Answered(provider, q, bs[j], start + j))
    requires Given(provider, q, bs, start, k, r.probabilities)
    requires !Answered(provider, q, bs[k], start + k) && provider(start + k, q, bs[k]) == Err(QuestionTooLarge)
    ensures Keeps(provider, q, bs[..k + 1], start, r)
  {
    hide Answered, Flat, Ids, AllFromCalls;
    var calls := bs[..k + 1];
    assert calls[k] == bs[k] && start + |calls| - 1 == start + k;
    assert calls[..k] == bs[..k];
  }

  lemma LastSpoiled(provider: Provider, q: Question, bs: seq<seq<Candidate>>, start: nat, k: nat, r: BatchDecision)
    requires k < |bs| && (forall j :: 0 <= j < k ==> Answered(provider, q, bs[j], start + j))
    requires Spoiled(provider, q, bs[k], start + k) && r.probabilities == map[]
    requires provider(start + k, q, bs[k]).Err? ==> r.error == Some(provider(start + k, q, bs[k]).error)
    ensures Keeps(provider, q, bs[..k + 1], start, r)
  {
    hide Answered, Flat, Ids, Heard;
    var calls := bs[..k + 1];
    assert calls[k] == bs[k];
  }

  lemma CutAt(q: Question, cs: seq<Candidate>, wire: Wire, bs: seq<seq<Candidate>>, dropped: bool, k: nat)
    requires Cut(q, cs, wire, bs, dropped) && k < |bs|
    ensures Bounded(q, bs[k], wire)
  {
    hide Bounded;
  }

  lemma {:induction false} FlatPrefix(bs: seq<seq<Candidate>>, k: nat)
    requires k <= |bs|
    ensures Ids(Flat(bs[..k])) <= Ids(Flat(bs))
    decreases |bs|
  {
    hide Ids;
    if k == |bs| {
      assert bs[..k] == bs;
    } else {
      FlatPrefix(bs[..|bs| - 1], k);
      assert bs[..|bs| - 1][..k] == bs[..k];
      IdsConcat(Flat(bs[..|bs| - 1]), bs[|bs| - 1]);
    }
  }

  lemma StoppedIsSound(
    provider: Provider, q: Question, cs: seq<Candidate>, wire: Wire, bs: seq<seq<Candidate>>, dropped: bool,
    start: nat, k: nat, ps: map<string, Float>)
    requires Cut(q, cs, wire, bs, dropped) && k <= |bs| && Given(provider, q, bs, start, k, ps)
    ensures Sound(provider, q, cs, start, bs[..k], BatchDecision(ps, false, Some(BudgetLimited)))
  {
    hide Bounded, Flat, AllFromCalls;
    FlatPrefix(bs, k);
  }

  lemma FinishedIsSound(
    provider: Provider, q: Question, cs: seq<Candidate>, wire: Wire, bs: seq<seq<Candidate>>, dropped: bool,
    start: nat, ps: map<string, Float>)
    requires Cut(q, cs, wire, bs, dropped) && Given(provider, q, bs, start, |bs|, ps)
    ensures Sound(provider, q, cs, start, bs,
      BatchDecision(ps, !dropped, if dropped then Some(BudgetLimited) else None))
  {
    hide Bounded, Flat, AllFromCalls, Among;
    assert bs[..|bs|] == bs;
  }

  lemma NothingIsSound(
    provider: Provider, q: Question, cs: seq<Candidate>, start: nat, calls: seq<seq<Candidate>>, e: Error)
    ensures Sound(provider, q, cs, start, calls, BatchDecision(map[], false, Some(e)))
  {
  }

  lemma MoreCalls(
    provider: Provider, q: Question, cs: seq<Candidate>, start: nat, bs: seq<seq<Candidate>>, k: nat,
    r: BatchDecision)
    requires k < |bs| && Sound(provider, q, cs, start, bs[..k], r)
    ensures Sound(provider, q, cs, start, bs[..k + 1], r)
  {
    hide AllFromCalls;
    assert bs[..k + 1] == bs[..k] + [bs[k]];
    AllFromCallsGrow(provider, q, bs[..k], bs[k], start, r.probabilities);
  }

  /** One stage: check the question, refuse repeated ids, cut, ask. Each reservation is one
    * provider call and each call was within every bound. */
  method DecideBatched(provider: Provider, q: Question, cs: seq<Candidate>, wire: Wire, budget: QueryBudget)
    returns (r: BatchDecision, ghost calls: seq<seq<Candidate>>)
    requires budget.Valid()
    modifies budget
    ensures budget.Valid()
    ensures budget.requests == old(budget.requests) + |calls|
    ensures budget.bytes == old(budget.bytes) + TotalBytes(q, calls, wire)
    ensures forall k :: 0 <= k < |calls| ==> Bounded(q, calls[k], wire)
    ensures forall k :: 0 <= k < |calls| ==> ClosedRun(q, cs, wire, calls[k]) || LastRun(cs, calls[k])
    ensures Sound(provider, q, cs, old(budget.requests), calls, r)
    ensures Keeps(provider, q, calls, old(budget.requests), r)
  {
    hide Bounded, Distinct, Flat, GivenBy, Keeps, ClosedRun, LastRun;
    calls := [];
    NothingAsked(provider, q, old(budget.requests));
    var bad := ValidateRequest(q, [], wire);
    if bad.Some? { return BatchDecision(map[], false, bad), []; }
    var ok := AllDistinct(cs);
    if !ok { return BatchDecision(map[], false, Some(InvalidCandidates)), []; }
    var bs, dropped := CutBatches(q, cs, wire);
    r, calls := AskBatches(provider, q, wire, bs, dropped, budget, cs);
  }

  datatype Stage = Stage(question: Question, candidates: seq<Candidate>)

  lemma NothingAsked(provider: Provider, q: Question, start: nat)
    ensures forall r: BatchDecision :: r.probabilities == map[] ==> Keeps(provider, q, [], start, r)
  {
    NothingWithin();
  }

  /** The calls of the stages before a given one. */
  function CallsBefore(calls: seq<seq<seq<Candidate>>>, n: nat): nat
    requires n <= |calls|
  {
    if n == 0 then 0 else CallsBefore(calls, n - 1) + |calls[n - 1]|
  }

  function BytesBefore(stages: seq<Stage>, calls: seq<seq<seq<Candidate>>>, wire: Wire, n: nat): nat
    requires n <= |calls| && n <= |stages|
  {
    if n == 0 then 0
    else BytesBefore(stages, calls, wire, n - 1) + TotalBytes(stages[n - 1].question, calls[n - 1], wire)
  }

  lemma {:induction false} BeforeStable(
    stages: seq<Stage>, calls: seq<seq<seq<Candidate>>>, more: seq<seq<Candidate>>, wire: Wire, n: nat)
    requires n <= |calls| && n <= |stages|
    ensures CallsBefore(calls + [more], n) == CallsBefore(calls, n)
    ensures BytesBefore(stages, calls + [more], wire, n) == BytesBefore(stages, calls, wire, n)
  {
    hide TotalBytes;
    if n > 0 { BeforeStable(stages, calls, more, wire, n - 1); }
  }

  /** One stage's part of a query: within every bound, sound, and keeping what it should. */
  ghost predicate StageSound(
    provider: Provider, stage: Stage, wire: Wire, start: nat, calls: seq<seq<Candidate>>, r: BatchDecision)
  {
    && (forall k :: 0 <= k < |calls| ==> Bounded(stage.question, calls[k], wire))
    && Sound(provider, stage.question, stage.candidates, start, calls, r)
    && Keeps(provider, stage.question, calls, start, r)
  }

  ghost predicate StagesSound(
    provider: Provider, stages: seq<Stage>, wire: Wire, calls: seq<seq<seq<Candidate>>>, rs: seq<BatchDecision>)
  {
    && |rs| == |calls| <= |stages|
    && forall k :: 0 <= k < |rs| ==> StageSound(provider, stages[k], wire, CallsBefore(calls, k), calls[k], rs[k])
  }

  /** What a caller reads off an answer alone: complete exactly without error, and then over
    * exactly the candidate ids; never over others. */
  predicate Covers(cs: seq<Candidate>, r: BatchDecision) {
    && (r.complete <==> r.error.None?)
    && (r.complete ==> r.probabilities.Keys == Ids(cs))
    && r.probabilities.Keys <= Ids(cs)
    && (r.error.Some? && r.error.value != BudgetLimited ==> r.probabilities == map[])
  }

  lemma StagesCover(
    provider: Provider, stages: seq<Stage>, wire: Wire, calls: seq<seq<seq<Candidate>>>, rs: seq<BatchDecision>)
    requires StagesSound(provider, stages, wire, calls, rs)
    ensures forall k :: 0 <= k < |rs| ==> Covers(stages[k].candidates, rs[k])
  {
    hide Bounded, Keeps, AllFromCalls, Ids;
    forall k | 0 <= k < |rs| ensures Covers(stages[k].candidates, rs[k]) {
      assert StageSound(provider, stages[k], wire, CallsBefore(calls, k), calls[k], rs[k]);
    }
  }

  lemma NoStages(provider: Provider, stages: seq<Stage>, wire: Wire)
    ensures StagesSound(provider, stages, wire, [], [])
  {
  }

  lemma CountsGrow(stages: seq<Stage>, calls: seq<seq<seq<Candidate>>>, asked: seq<seq<Candidate>>, wire: Wire)
    requires |calls| < |stages|
    ensures CallsBefore(calls + [asked], |calls| + 1) == CallsBefore(calls, |calls|) + |asked|
    ensures BytesBefore(stages, calls + [asked], wire, |calls| + 1)
      == BytesBefore(stages, calls, wire, |calls|) + TotalBytes(stages[|calls|].question, asked, wire)
  {
    hide TotalBytes;
    BeforeStable(stages, calls, asked, wire, |calls|);
    assert (calls + [asked])[|calls|] == asked;
  }

  lemma StagesGrow(
    provider: Provider, stages: seq<Stage>, wire: Wire, calls: seq<seq<seq<Candidate>>>, rs: seq<BatchDecision>,
    asked: seq<seq<Candidate>>, r: BatchDecision)
    requires StagesSound(provider, stages, wire, calls, rs) && |rs| < |stages|
    requires StageSound(provider, stages[|rs|], wire, CallsBefore(calls, |rs|), asked, r)
    ensures StagesSound(provider, stages, wire, calls + [asked], rs + [r])
  {
    hide StageSound, CallsBefore, BytesBefore;
    var more, ends := calls + [asked], rs + [r];
    forall k | 0 <= k < |ends| ensures StageSound(provider, stages[k], wire, CallsBefore(more, k), more[k], ends[k]) {
      BeforeStable(stages, calls, asked, wire, k);
      if k < |rs| { assert more[k] == calls[k] && ends[k] == rs[k]; } else { assert more[k] == asked && ends[k] == r; }
    }
  }

  /** The stages of one query share one budget. Whatever the provider does, it is called twice
    * at most, the requests it was sent take at most the byte bound together, and every stage's
    * answer is sound about its own calls, numbered through the query. */
  method RunStages(provider: Provider, stages: seq<Stage>, wire: Wire)
    returns (rs: seq<BatchDecision>, requests: nat, bytes: nat, ghost calls: seq<seq<seq<Candidate>>>)
    ensures |rs| == |stages| && requests <= MAX_PROVIDER_REQUESTS && bytes <= MAX_PROVIDER_BYTES
    ensures forall k :: 0 <= k < |rs| ==> Covers(stages[k].candidates, rs[k])
    ensures |calls| == |stages|
    ensures requests == CallsBefore(calls, |calls|) <= MAX_PROVIDER_REQUESTS
    ensures bytes == BytesBefore(stages, calls, wire, |calls|) <= MAX_PROVIDER_BYTES
    ensures StagesSound(provider, stages, wire, calls, rs)
  {
    hide Bounded, Sound, Keeps, TotalBytes, StagesSound, Covers;
    var budget := new QueryBudget();
    rs, calls := [], [];
    NoStages(provider, stages, wire);
    for k := 0 to |stages|
      invariant budget.Valid() && fresh(budget) && |rs| == |calls| == k
      invariant budget.requests == CallsBefore(calls, k) && budget.bytes == BytesBefore(stages, calls, wire, k)
      invariant StagesSound(provider, stages, wire, calls, rs)
    {
      var r, asked := DecideBatched(provider, stages[k].question, stages[k].candidates, wire, budget);
      CountsGrow(stages, calls, asked, wire);
      StagesGrow(provider, stages, wire, calls, rs, asked, r);
      rs, calls := rs + [r], calls + [asked];
    }
    StagesCover(provider, stages, wire, calls, rs);
    requests, bytes := budget.requests, budget.bytes;
  }
}
