/**
 The evidence directory under concurrent writers. Every call that persists, archives or
 publishes is a script of jobs; each primitive operation of a job is one step, may fail,
 and the process may crash before the next one.
 */
module EvidenceRuns {
  import opened Basics
  import opened EnvelopeText
  import JsonSpelling
  import JsonText

  /** SHA-256 as a free constructor: injective, and of a kind of its own. */
  datatype Digest = Sha256(of: Bytes)

  /** What is signed: the payload's hash beside version, issue time, run, configuration and key. */
  datatype Statement = Statement(identity: Bytes, payloadSHA256: Digest)

  /** How statements are written as JSON, and the quoted signature of such a text. */
  datatype Signer = Signer(encode: Statement -> Bytes, sign: Bytes -> Bytes)

  /** A statement is marshalled as one object text, and different statements differently. */
  ghost predicate GoodSigner(g: Signer) {
    && (forall s :: ObjectText(g.encode(s)))
    && (forall s, t :: g.encode(s) == g.encode(t) ==> s == t)
  }

  function StatementMembers(s: Statement): seq<JsonText.Member> {
    [JsonText.Member("identity", JsonText.Text(s.identity)),
     JsonText.Member("payload_sha256", JsonText.Text(s.payloadSHA256.of))]
  }

  function StatementText(s: Statement): Bytes { JsonSpelling.JsonOf(JsonText.Object(StatementMembers(s))) }

  function StatementEncoder(): Statement -> Bytes { (s: Statement) => StatementText(s) }

  function JsonSigner(sign: Bytes -> Bytes): Signer { Signer(StatementEncoder(), sign) }

  /** Writing statements as JSON objects makes a good signer, whatever the signatures. */
  lemma JsonSignerGood(sign: Bytes -> Bytes)
    ensures GoodSigner(JsonSigner(sign))
  {
    forall s ensures ObjectText(StatementText(s)) {
      JsonSpelling.JsonIsObjectText(StatementMembers(s));
    }
    forall s, t | StatementText(s) == StatementText(t) ensures s == t {
      StatementFixed(s, t);
    }
  }

  lemma StatementFixed(s: Statement, t: Statement)
    requires StatementText(s) == StatementText(t)
    ensures s == t
  {
    var a, b := StatementMembers(s), StatementMembers(t);
    JsonSpelling.JsonFixesValue(JsonText.Object(a), JsonText.Object(b));
    assert a[0] == b[0] && a[1] == b[1];
  }

  /** `SignJSON` and `MarshalEnvelope`: only a JSON object is signed, and its bytes are hashed and kept. */
  function SignJSON(g: Signer, identity: Bytes, payload: Bytes): Option<Bytes> {
    if ObjectText(Trim(payload)) then
      var statement := g.encode(Statement(identity, Sha256(payload)));
      Some(MarshalEnvelope(statement, payload, g.sign(statement)))
    else None
  }

  /** Read back, the bytes are an envelope of this payload with a signed statement of this payload's hash. */
  ghost predicate Attests(g: Signer, contents: Bytes, payload: Bytes) {
    exists identity :: ReadEnvelope(contents) == Some(FieldsFor(g, identity, payload))
  }

  ghost function FieldsFor(g: Signer, identity: Bytes, payload: Bytes): Fields {
    var statement := g.encode(Statement(identity, Sha256(payload)));
    Fields(statement, payload, g.sign(statement))
  }

  /** What is signed attests its payload exactly when the payload has no blanks around its object. */
  lemma SignedAttests(g: Signer, identity: Bytes, payload: Bytes)
    requires GoodSigner(g) && SignJSON(g, identity, payload).Some?
    ensures Attests(g, SignJSON(g, identity, payload).value, payload) <==> Trim(payload) == payload
  {
    var statement := g.encode(Statement(identity, Sha256(payload)));
    EnvelopeReadsBack(statement, payload, g.sign(statement));
    if Trim(payload) == payload {
      assert ReadEnvelope(SignJSON(g, identity, payload).value) == Some(FieldsFor(g, identity, payload));
    }
  }

  /** An attestation attests one payload only, and neither its payload nor its statement can be exchanged. */
  lemma AttestationFixesPayload(g: Signer, c: Bytes, p: Bytes, d: Bytes, q: Bytes)
    requires GoodSigner(g) && Attests(g, c, p) && Attests(g, d, q)
    requires c == d || ReadEnvelope(c).value.statement == ReadEnvelope(d).value.statement
    ensures p == q
  {
    var i :| ReadEnvelope(c) == Some(FieldsFor(g, i, p));
    var j :| ReadEnvelope(d) == Some(FieldsFor(g, j, q));
  }

  datatype Path =
    | InCycle(cycle: string, name: string)
    | InProfile(cycle: string, profile: string, phase: string, name: string)
    | Latest(name: string)
    | Outside(name: string)
    | Temporary(suffix: nat)

  const REPORT := "report.json"
  const ATTESTATION := "attestation.json"
  const LATEST_REPORT := "last-cycle.json"
  const LATEST_ATTESTATION := "last-cycle.attestation.json"

  /** A file below a cycle's directory: published once and never replaced. */
  predicate Durable(path: Path) { path.InCycle? || path.InProfile? }

  datatype Job = Exclusive(path: Path, contents: Bytes) | Replace(path: Path, contents: Bytes) | Print(contents: Bytes)

  /** `needs` is an earlier job that must have succeeded; after a failed job that is `last`, the call returns. */
  datatype Item = Item(job: Job, needs: Option<nat>, last: bool)

  /** A failed exclusive create that could not remove its own file leaves it behind. */
  datatype Outcome = Succeeded | Failed(left: bool) | Skipped

  /** `progress` counts what is behind: created, written, synced, closed and, for a replacement, renamed. */
  datatype Stage =
    | Ready
    | Holding(progress: nat)
    | Undoing
    | TempHolding(suffix: nat, progress: nat)
    | Dropping(suffix: nat, ok: bool)

  datatype Proc = Proc(script: seq<Item>, done: seq<Outcome>, stage: Stage, alive: bool)

  /** `owner` records which job of which process created each durable file that is there. */
  datatype State = State(
    signer: Signer, files: map<Path, Bytes>, owner: map<Path, (nat, nat)>, used: set<nat>, procs: seq<Proc>)

  /** What the operating system answers: success or failure, what a failed write leaves, a random suffix. */
  datatype Action = Crash(p: nat) | Move(p: nat, ok: bool, partial: Bytes, suffix: nat)

  function Start(signer: Signer, scripts: seq<seq<Item>>): State {
    State(signer, map[], map[], {}, seq(|scripts|, i requires 0 <= i < |scripts| => Proc(scripts[i], [], Ready, true)))
  }

  // ----- one process

  predicate Returned(c: Proc) {
    |c.done| >= |c.script| || (c.done != [] && c.done[|c.done| - 1].Failed? && c.script[|c.done| - 1].last)
  }

  predicate NeedsMet(c: Proc, item: Item) {
    match item.needs
    case None => true
    case Some(j) => j < |c.done| && c.done[j].Succeeded?
  }

  function End(c: Proc, outcome: Outcome): Proc { c.(done := c.done + [outcome], stage := Ready) }

  predicate Enabled(s: State, act: Action) {
    && act.p < |s.procs| && s.procs[act.p].alive
    && (act.Move? ==> !Returned(s.procs[act.p]) && (s.procs[act.p].stage.Ready? ==> act.suffix !in s.used))
  }

  /** What one operation leaves: the acting process and the directory. */
  datatype Effect = Effect(proc: Proc, files: map<Path, Bytes>, owner: map<Path, (nat, nat)>, used: set<nat>)

  function Keep(s: State, c: Proc): Effect { Effect(c, s.files, s.owner, s.used) }

  /** `O_EXCL` create: fails when the name is taken. */
  function Create(s: State, p: nat, c: Proc, path: Path, ok: bool): Effect {
    if ok && path !in s.files then
      Keep(s, c.(stage := Holding(0))).(files := s.files[path := ""], owner := s.owner[path := (p, |c.done|)])
    else
      Keep(s, End(c, Failed(false)))
  }

  function ExclusiveStep(s: State, p: nat, c: Proc, path: Path, contents: Bytes, act: Action): Effect
    requires act.Move?
  {
    match c.stage
    case Ready => Create(s, p, c, path, act.ok)
    case Holding(0) =>
      var written := if act.ok then contents else act.partial;
      Keep(s, c.(stage := if act.ok then Holding(1) else Undoing)).(files := s.files[path := written])
    case Holding(n) =>
      if !act.ok then Keep(s, c.(stage := Undoing))
      else if n < 3 then Keep(s, c.(stage := Holding(n + 1)))
      else Keep(s, End(c, Succeeded))
    case _ =>
      if act.ok then Keep(s, End(c, Failed(false))).(files := s.files - {path}, owner := s.owner - {path})
      else Keep(s, End(c, Failed(true)))
  }

  function ReplaceStep(s: State, c: Proc, path: Path, contents: Bytes, act: Action): Effect
    requires act.Move?
  {
    match c.stage
    case Ready =>
      if act.ok then
        Keep(s, c.(stage := TempHolding(act.suffix, 0)))
          .(files := s.files[Temporary(act.suffix) := ""], used := s.used + {act.suffix})
      else Keep(s, End(c, Failed(false)))
    case TempHolding(x, n) =>
      var temp := Temporary(x);
      if n == 0 then
        Keep(s, c.(stage := if act.ok then TempHolding(x, 1) else Dropping(x, false)))
          .(files := s.files[temp := if act.ok then contents else act.partial])
      else if n == 4 then Keep(s, c.(stage := Dropping(x, act.ok)))
      else if !act.ok || temp !in s.files then Keep(s, c.(stage := Dropping(x, false)))
      else if n < 3 then Keep(s, c.(stage := TempHolding(x, n + 1)))
      else Keep(s, c.(stage := TempHolding(x, 4))).(files := (s.files - {temp})[path := s.files[temp]])
    case Dropping(x, ok) =>
      Keep(s, End(c, if ok then Succeeded else Failed(false)))
        .(files := if act.ok then s.files - {Temporary(x)} else s.files)
    case _ => Keep(s, End(c, Failed(false)))
  }

  function EffectOf(s: State, act: Action): Effect
    requires Enabled(s, act)
  {
    var c := s.procs[act.p];
    if act.Crash? then Keep(s, c.(alive := false))
    else
      var item := c.script[|c.done|];
      if c.stage.Ready? && !NeedsMet(c, item) then Keep(s, End(c, Skipped))
      else
        match item.job
        case Exclusive(path, contents) => ExclusiveStep(s, act.p, c, path, contents, act)
        case Replace(path, contents) => ReplaceStep(s, c, path, contents, act)
        case Print(_) => Keep(s, End(c, if act.ok then Succeeded else Failed(false)))
  }

  function Step(s: State, act: Action): State
    requires Enabled(s, act)
  {
    var e := EffectOf(s, act);
    State(s.signer, e.files, e.owner, e.used, s.procs[act.p := e.proc])
  }

  // ----- what holds in every reachable state

  /** Item `j` archives the report that the attestation in item `k` signs. */
  ghost predicate SignsReport(g: Signer, script: seq<Item>, j: nat, k: nat, cycle: string) {
    && j < k < |script| && script[k].job.Exclusive?
    && script[j].job.Exclusive? && script[j].job.path == InCycle(cycle, REPORT)
    && Attests(g, script[k].job.contents, script[j].job.contents)
  }

  ghost predicate GoodItem(g: Signer, script: seq<Item>, k: nat)
    requires k < |script|
  {
    var item := script[k];
    && (item.needs.Some? ==> item.needs.value < k)
    && match item.job
       case Exclusive(path, _) =>
         && Durable(path)
         && (path.InCycle? && path.name == ATTESTATION ==>
             item.needs.Some? && SignsReport(g, script, item.needs.value, k, path.cycle))
       case Replace(path, _) => path.Latest? || path.Outside?
       case Print(_) => true
  }

  ghost predicate GoodScript(g: Signer, script: seq<Item>) {
    forall k: nat :: k < |script| ==> GoodItem(g, script, k)
  }

  /** Item `k` created its file and did not remove it. */
  predicate Holds(c: Proc, k: nat) {
    && k < |c.script| && c.script[k].job.Exclusive?
    && (k < |c.done| ==> c.done[k].Succeeded? || c.done[k] == Failed(true))
    && (k >= |c.done| ==> k == |c.done| && (c.stage.Holding? || c.stage.Undoing?))
  }

  predicate Filled(c: Proc, k: nat) {
    && Holds(c, k)
    && (k < |c.done| ==> c.done[k].Succeeded?)
    && (k == |c.done| ==> c.stage.Holding? && c.stage.progress >= 1)
  }

  /** Item `k` was begun, not skipped. */
  predicate Begun(c: Proc, k: nat) {
    k < |c.script| && if k < |c.done| then !c.done[k].Skipped? else k == |c.done| && !c.stage.Ready?
  }

  ghost predicate NeedsKept(c: Proc) {
    forall k: nat :: Begun(c, k) && c.script[k].needs.Some? ==>
      c.script[k].needs.value < |c.done| && c.done[c.script[k].needs.value].Succeeded?
  }

  predicate StageOk(s: State, c: Proc) {
    && |c.done| <= |c.script|
    && (!c.stage.Ready? ==> |c.done| < |c.script|)
    && match c.stage
       case Ready => true
       case Holding(n) => n <= 3 && c.script[|c.done|].job.Exclusive?
       case Undoing => c.script[|c.done|].job.Exclusive?
       case TempHolding(x, n) =>
         && n <= 4 && c.script[|c.done|].job.Replace? && x in s.used
         && (1 <= n <= 3 ==> Temporary(x) in s.files && s.files[Temporary(x)] == c.script[|c.done|].job.contents)
       case Dropping(x, _) => c.script[|c.done|].job.Replace? && x in s.used
  }

  ghost predicate HeldOk(s: State, p: nat, k: nat)
    requires p < |s.procs| && Holds(s.procs[p], k)
  {
    var job := s.procs[p].script[k].job;
    && job.path in s.owner && s.owner[job.path] == (p, k) && job.path in s.files
    && (Filled(s.procs[p], k) ==> s.files[job.path] == job.contents)
  }

  ghost predicate ProcOk(s: State, p: nat)
    requires p < |s.procs|
  {
    var c := s.procs[p];
    GoodScript(s.signer, c.script) && StageOk(s, c) && NeedsKept(c) && forall k: nat :: Holds(c, k) ==> HeldOk(s, p, k)
  }

  predicate TempOf(c: Proc, x: nat) { (c.stage.TempHolding? || c.stage.Dropping?) && c.stage.suffix == x }

  ghost predicate TempsApart(s: State) {
    forall p: nat, q: nat, x: nat :: p < q < |s.procs| && TempOf(s.procs[p], x) ==> !TempOf(s.procs[q], x)
  }

  predicate OwnerOk(s: State, path: Path)
    requires path in s.owner
  {
    var (p, k) := s.owner[path];
    path in s.files && p < |s.procs| && Holds(s.procs[p], k) && s.procs[p].script[k].job.path == path
  }

  /** Some replace job of some process carries these bytes for this name. */
  ghost predicate Offered(s: State, path: Path, contents: Bytes) {
    exists p: nat, k: nat :: p < |s.procs| && k < |s.procs[p].script|
      && s.procs[p].script[k].job == Replace(path, contents)
  }

  ghost predicate FileOk(s: State, path: Path) {
    && (path in s.owner ==> Durable(path) && OwnerOk(s, path))
    && (path in s.files ==>
          && (Durable(path) ==> path in s.owner)
          && (path.Temporary? ==> path.suffix in s.used)
          && (path.Latest? || path.Outside? ==> Offered(s, path, s.files[path])))
  }

  ghost predicate Inv(s: State) {
    && (forall p: nat :: p < |s.procs| ==> ProcOk(s, p))
    && TempsApart(s)
    && forall path :: FileOk(s, path)
  }

  lemma StartInv(g: Signer, scripts: seq<seq<Item>>)
    requires forall i :: 0 <= i < |scripts| ==> GoodScript(g, scripts[i])
    ensures Inv(Start(g, scripts))
  {}

  // ----- what one step touches

  predicate SameAt<V(==)>(m: map<Path, V>, n: map<Path, V>, path: Path) {
    (path in m <==> path in n) && (path in m ==> m[path] == n[path])
  }

  ghost predicate Untouched(s: State, s': State, path: Path) {
    SameAt(s.files, s'.files, path) && SameAt(s.owner, s'.owner, path)
  }

  /** The names the next operation of `act.p` may touch: its own file or a free name, its target, its temporary file. */
  ghost predicate Mine(s: State, act: Action, path: Path)
    requires Enabled(s, act) && act.Move?
  {
    var c := s.procs[act.p];
    match c.script[|c.done|].job
    case Exclusive(target, _) =>
      && path == target
      && if c.stage.Ready? then path !in s.files else path in s.owner && s.owner[path] == (act.p, |c.done|)
    case Replace(target, _) =>
      || path == target
      || if c.stage.Ready? then path == Temporary(act.suffix) else exists x :: TempOf(c, x) && path == Temporary(x)
    case Print(_) => false
  }

  lemma ExclusiveTouches(s: State, c: Proc, target: Path, contents: Bytes, act: Action, path: Path)
    requires act.Move? && (path != target || (c.stage.Ready? && target in s.files))
    ensures var e := ExclusiveStep(s, act.p, c, target, contents, act);
      SameAt(s.files, e.files, path) && SameAt(s.owner, e.owner, path)
  {}

  lemma ReplaceTouches(s: State, c: Proc, target: Path, contents: Bytes, act: Action, path: Path)
    requires act.Move? && path != target
    requires c.stage.Ready? ==> path != Temporary(act.suffix)
    requires c.stage.TempHolding? || c.stage.Dropping? ==> path != Temporary(c.stage.suffix)
    ensures var e := ReplaceStep(s, c, target, contents, act);
      SameAt(s.files, e.files, path) && SameAt(s.owner, e.owner, path)
  {}

  lemma OnlyMineExclusive(s: State, act: Action, path: Path)
    requires Enabled(s, act) && act.Move? && ProcOk(s, act.p)
    requires s.procs[act.p].script[|s.procs[act.p].done|].job.Exclusive?
    ensures Untouched(s, Step(s, act), path) || Mine(s, act, path)
  {
    var c := s.procs[act.p];
    var job := c.script[|c.done|].job;
    if c.stage.Ready? && !NeedsMet(c, c.script[|c.done|]) {
    } else if path != job.path || (c.stage.Ready? && path in s.files) {
      ExclusiveTouches(s, c, job.path, job.contents, act, path);
    } else if !c.stage.Ready? {
      assert Holds(c, |c.done|);
      assert HeldOk(s, act.p, |c.done|);
    }
  }

  lemma OnlyMineReplace(s: State, act: Action, path: Path)
    requires Enabled(s, act) && act.Move?
    requires s.procs[act.p].script[|s.procs[act.p].done|].job.Replace?
    ensures Untouched(s, Step(s, act), path) || Mine(s, act, path)
  {
    var c := s.procs[act.p];
    var job := c.script[|c.done|].job;
    if c.stage.TempHolding? || c.stage.Dropping? {
      assert TempOf(c, c.stage.suffix);
    }
    if !Mine(s, act, path) && !(c.stage.Ready? && !NeedsMet(c, c.script[|c.done|])) {
      ReplaceTouches(s, c, job.path, job.contents, act, path);
    }
  }

  lemma OnlyMine(s: State, act: Action, path: Path)
    requires Enabled(s, act) && ProcOk(s, act.p)
    ensures Untouched(s, Step(s, act), path) || (act.Move? && Mine(s, act, path))
  {
    if act.Move? {
      var c := s.procs[act.p];
      match c.script[|c.done|].job
      case Exclusive(_, _) => OnlyMineExclusive(s, act, path);
      case Replace(_, _) => OnlyMineReplace(s, act, path);
      case Print(_) =>
    }
  }

  predicate Advances(c: Proc, e: Proc) {
    && e.script == c.script
    && (e.done == c.done || e == End(c, Succeeded) || e == End(c, Failed(true)) || e == End(c, Failed(false)))
  }

  lemma ExclusiveAdvances(s: State, c: Proc, target: Path, contents: Bytes, act: Action)
    requires act.Move?
    ensures Advances(c, ExclusiveStep(s, act.p, c, target, contents, act).proc)
  {}

  lemma ReplaceAdvances(s: State, c: Proc, target: Path, contents: Bytes, act: Action)
    requires act.Move?
    ensures Advances(c, ReplaceStep(s, c, target, contents, act).proc)
  {}

  /** The actor keeps its script and its outcomes, and adds at most one; it skips only a gated item. */
  lemma ActorOutcome(s: State, act: Action)
    requires Enabled(s, act)
    ensures var c, e := s.procs[act.p], EffectOf(s, act).proc;
      Advances(c, e) || (|c.done| < |c.script| && c.script[|c.done|].needs.Some? && e == End(c, Skipped))
  {
    var c := s.procs[act.p];
    if act.Move? {
      match c.script[|c.done|].job
      case Exclusive(path, contents) => ExclusiveAdvances(s, c, path, contents, act);
      case Replace(path, contents) => ReplaceAdvances(s, c, path, contents, act);
      case Print(_) =>
    }
  }

  lemma ScriptsStay(s: State, act: Action, p: nat)
    requires Enabled(s, act) && p < |s.procs|
    ensures |Step(s, act).procs| == |s.procs| && Step(s, act).procs[p].script == s.procs[p].script
  {
    ActorOutcome(s, act);
  }

  lemma ExclusiveTakesNoTemporary(s: State, p: nat, c: Proc, path: Path, contents: Bytes, act: Action, x: nat)
    requires act.Move?
    ensures !TempOf(ExclusiveStep(s, p, c, path, contents, act).proc, x)
  {}

  lemma ReplaceTemporary(s: State, c: Proc, path: Path, contents: Bytes, act: Action, x: nat)
    requires act.Move? && TempOf(ReplaceStep(s, c, path, contents, act).proc, x)
    ensures TempOf(c, x) || (c.stage.Ready? && x == act.suffix)
  {}

  lemma ActorTemporary(s: State, act: Action, x: nat)
    requires Enabled(s, act) && TempOf(EffectOf(s, act).proc, x)
    ensures TempOf(s.procs[act.p], x) || (act.Move? && s.procs[act.p].stage.Ready? && x == act.suffix)
  {
    if act.Move? {
      var c := s.procs[act.p];
      match c.script[|c.done|].job
      case Exclusive(path, contents) => ExclusiveTakesNoTemporary(s, act.p, c, path, contents, act, x);
      case Replace(path, contents) =>
        if !c.stage.Ready? || NeedsMet(c, c.script[|c.done|]) {
          ReplaceTemporary(s, c, path, contents, act, x);
        }
      case Print(_) =>
    }
  }

  lemma TempComesFrom(s: State, act: Action, p: nat, x: nat)
    requires Enabled(s, act) && p < |s.procs| && TempOf(Step(s, act).procs[p], x)
    ensures TempOf(s.procs[p], x) || (p == act.p && act.Move? && s.procs[p].stage.Ready? && x == act.suffix)
  {
    if p == act.p { ActorTemporary(s, act, x); }
  }

  lemma TempIsUsed(s: State, p: nat, x: nat)
    requires Inv(s) && p < |s.procs| && TempOf(s.procs[p], x)
    ensures x in s.used
  {
    assert ProcOk(s, p);
  }

  lemma StepTempsApart(s: State, act: Action)
    requires Inv(s) && Enabled(s, act)
    ensures TempsApart(Step(s, act))
  {
    var s' := Step(s, act);
    forall p: nat, q: nat, x: nat | p < q < |s'.procs| && TempOf(s'.procs[p], x) ensures !TempOf(s'.procs[q], x) {
      if TempOf(s'.procs[q], x) {
        TempComesFrom(s, act, p, x);
        TempComesFrom(s, act, q, x);
        if TempOf(s.procs[p], x) { TempIsUsed(s, p, x); }
        if TempOf(s.procs[q], x) { TempIsUsed(s, q, x); }
      }
    }
  }

  // ----- the acting process

  lemma ActorStage(s: State, act: Action)
    requires Inv(s) && Enabled(s, act)
    ensures StageOk(Step(s, act), Step(s, act).procs[act.p])
  {
    assert ProcOk(s, act.p);
    var c := s.procs[act.p];
    assert |c.done| < |c.script| ==> GoodItem(s.signer, c.script, |c.done|);
  }

  lemma ActorNeeds(s: State, act: Action)
    requires Inv(s) && Enabled(s, act)
    ensures NeedsKept(Step(s, act).procs[act.p])
  {
    assert ProcOk(s, act.p);
    var c, c' := s.procs[act.p], Step(s, act).procs[act.p];
    forall k: nat | Begun(c', k) && c'.script[k].needs.Some?
      ensures c'.script[k].needs.value < |c'.done| && c'.done[c'.script[k].needs.value].Succeeded?
    {
      assert GoodItem(s.signer, c.script, k);
      assert Begun(c, k) || (k == |c.done| && c.stage.Ready?);
    }
  }

  predicate AtItsFile(c: Proc) { c.stage.Holding? || c.stage.Undoing? }

  /** What one operation does to its process: it stays at its item, or ends it. */
  predicate Proceeds(c: Proc, d: Proc) {
    && d.script == c.script
    && if |d.done| == |c.done| then d.done == c.done && (AtItsFile(d) ==> AtItsFile(c) || c.stage.Ready?)
       else
         && |d.done| == |c.done| + 1 <= |c.script| && d.done[..|c.done|] == c.done && d.stage.Ready?
         && (c.script[|c.done|].job.Exclusive? && (d.done[|c.done|].Succeeded? || d.done[|c.done|] == Failed(true)) ==>
               AtItsFile(c))
  }

  lemma EndProceeds(c: Proc, outcome: Outcome)
    requires |c.done| < |c.script|
    requires c.script[|c.done|].job.Exclusive? && (outcome.Succeeded? || outcome == Failed(true)) ==> AtItsFile(c)
    ensures Proceeds(c, End(c, outcome))
  {}

  lemma ExclusiveProceeds(s: State, p: nat, c: Proc, path: Path, contents: Bytes, act: Action)
    requires act.Move? && |c.done| < |c.script| && (c.stage.Ready? || AtItsFile(c))
    ensures Proceeds(c, ExclusiveStep(s, p, c, path, contents, act).proc)
  {
    EndProceeds(c, Failed(false));
    if AtItsFile(c) {
      EndProceeds(c, Succeeded);
      EndProceeds(c, Failed(true));
    }
  }

  lemma ReplaceProceeds(s: State, c: Proc, path: Path, contents: Bytes, act: Action)
    requires act.Move? && |c.done| < |c.script| && !c.script[|c.done|].job.Exclusive?
    ensures Proceeds(c, ReplaceStep(s, c, path, contents, act).proc)
  {
    EndProceeds(c, Failed(false));
    EndProceeds(c, Succeeded);
  }

  lemma ActorProceeds(s: State, act: Action)
    requires Enabled(s, act) && StageOk(s, s.procs[act.p])
    ensures Proceeds(s.procs[act.p], EffectOf(s, act).proc)
  {
    if act.Move? {
      var c := s.procs[act.p];
      match c.script[|c.done|].job
      case Exclusive(path, contents) =>
        EndProceeds(c, Skipped);
        ExclusiveProceeds(s, act.p, c, path, contents, act);
      case Replace(path, contents) =>
        EndProceeds(c, Skipped);
        ReplaceProceeds(s, c, path, contents, act);
      case Print(_) =>
        EndProceeds(c, Skipped);
        EndProceeds(c, Succeeded);
        EndProceeds(c, Failed(false));
    }
  }

  lemma HoldBefore(c: Proc, d: Proc, k: nat)
    requires Proceeds(c, d) && Holds(d, k)
    ensures Holds(c, k) || (k == |c.done| && c.stage.Ready?)
  {
    if k < |c.done| < |d.done| { assert d.done[..|c.done|][k] == c.done[k]; }
  }

  /** What the actor holds after the step it held before, unless it just created it. */
  lemma HoldComesFrom(s: State, act: Action, k: nat)
    requires Enabled(s, act) && StageOk(s, s.procs[act.p]) && Holds(Step(s, act).procs[act.p], k)
    ensures Holds(s.procs[act.p], k) || (k == |s.procs[act.p].done| && s.procs[act.p].stage.Ready? && act.Move?)
  {
    if act.Move? {
      ActorProceeds(s, act);
      HoldBefore(s.procs[act.p], EffectOf(s, act).proc, k);
    }
  }

  /** A file another item of the actor holds is not the one it is working on. */
  lemma EarlierHoldUntouched(s: State, act: Action, k: nat)
    requires Inv(s) && Enabled(s, act) && k < |s.procs[act.p].done| && Holds(s.procs[act.p], k)
    ensures Untouched(s, Step(s, act), s.procs[act.p].script[k].job.path)
  {
    var c := s.procs[act.p];
    assert ProcOk(s, act.p) && HeldOk(s, act.p, k);
    assert GoodItem(s.signer, c.script, k);
    assert |c.done| < |c.script| ==> GoodItem(s.signer, c.script, |c.done|);
    OnlyMine(s, act, c.script[k].job.path);
  }

  lemma ActorHolds(s: State, act: Action, k: nat)
    requires Inv(s) && Enabled(s, act) && Holds(Step(s, act).procs[act.p], k)
    ensures HeldOk(Step(s, act), act.p, k)
  {
    var c := s.procs[act.p];
    assert ProcOk(s, act.p);
    HoldComesFrom(s, act, k);
    if Holds(c, k) {
      assert HeldOk(s, act.p, k);
      if k < |c.done| {
        EarlierHoldUntouched(s, act, k);
      }
    }
  }

  // ----- the others

  lemma OthersKeep(s: State, act: Action, q: nat)
    requires Inv(s) && Enabled(s, act) && q < |s.procs| && q != act.p
    ensures ProcOk(Step(s, act), q)
  {
    var s', c := Step(s, act), s.procs[q];
    assert s'.procs[q] == c;
    assert ProcOk(s, act.p) && ProcOk(s, q);
    var a := s.procs[act.p];
    assert act.Move? ==> |a.done| < |a.script| ==> GoodItem(s.signer, a.script, |a.done|);
    forall k: nat | Holds(c, k) ensures HeldOk(s', q, k) {
      assert HeldOk(s, q, k);
      assert GoodItem(s.signer, c.script, k);
      OnlyMine(s, act, c.script[k].job.path);
    }
    if c.stage.TempHolding? {
      OthersKeepTemporary(s, act, q);
    }
  }

  lemma OthersKeepTemporary(s: State, act: Action, q: nat)
    requires Inv(s) && Enabled(s, act) && q < |s.procs| && q != act.p && s.procs[q].stage.TempHolding?
    ensures Untouched(s, Step(s, act), Temporary(s.procs[q].stage.suffix))
  {
    var c, a := s.procs[q], s.procs[act.p];
    assert ProcOk(s, act.p) && ProcOk(s, q);
    assert act.Move? ==> |a.done| < |a.script| ==> GoodItem(s.signer, a.script, |a.done|);
    var x := c.stage.suffix;
    assert TempOf(c, x) && !TempOf(a, x);
    OnlyMine(s, act, Temporary(x));
  }

  lemma StepProcOk(s: State, act: Action, q: nat)
    requires Inv(s) && Enabled(s, act) && q < |s.procs|
    ensures ProcOk(Step(s, act), q)
  {
    if q == act.p {
      assert ProcOk(s, q);
      ActorStage(s, act);
      ActorNeeds(s, act);
      forall k: nat | Holds(Step(s, act).procs[q], k) ensures HeldOk(Step(s, act), q, k) { ActorHolds(s, act, k); }
    } else {
      OthersKeep(s, act, q);
    }
  }

  // ----- files

  lemma OfferedStays(s: State, act: Action, path: Path, contents: Bytes)
    requires Enabled(s, act) && Offered(s, path, contents)
    ensures Offered(Step(s, act), path, contents)
  {
    var p: nat, k: nat :| p < |s.procs| && k < |s.procs[p].script|
        && s.procs[p].script[k].job == Replace(path, contents);
    ScriptsStay(s, act, p);
  }

  /** A file that is still owned after a step is still held by its owner. */
  lemma OwnerStays(s: State, act: Action, path: Path)
    requires Inv(s) && Enabled(s, act) && path in s.owner && Untouched(s, Step(s, act), path)
    ensures OwnerOk(Step(s, act), path)
  {
    assert FileOk(s, path);
    var (p, k) := s.owner[path];
    if p == act.p {
      assert ProcOk(s, p) && HeldOk(s, p, k);
    }
  }

  lemma ExclusiveFileOk(s: State, act: Action, path: Path)
    requires Inv(s) && Enabled(s, act) && act.Move?
    requires Mine(s, act, path) && s.procs[act.p].script[|s.procs[act.p].done|].job.Exclusive?
    ensures FileOk(Step(s, act), path)
  {
    var c := s.procs[act.p];
    assert ProcOk(s, act.p) && FileOk(s, path);
    assert GoodItem(s.signer, c.script, |c.done|);
  }

  lemma ReplaceFileOk(s: State, act: Action, path: Path)
    requires Inv(s) && Enabled(s, act) && act.Move?
    requires Mine(s, act, path) && s.procs[act.p].script[|s.procs[act.p].done|].job.Replace?
    ensures FileOk(Step(s, act), path)
  {
    var c, s' := s.procs[act.p], Step(s, act);
    assert ProcOk(s, act.p) && FileOk(s, path);
    assert GoodItem(s.signer, c.script, |c.done|);
    if path in s.files && (path.Latest? || path.Outside?) {
      OfferedStays(s, act, path, s.files[path]);
    }
    if path in s'.files && (path.Latest? || path.Outside?) && !(path in s.files && s.files[path] == s'.files[path]) {
      assert s'.procs[act.p].script[|c.done|].job == Replace(path, s'.files[path]);
    }
  }

  lemma StepFileOk(s: State, act: Action, path: Path)
    requires Inv(s) && Enabled(s, act)
    ensures FileOk(Step(s, act), path)
  {
    assert FileOk(s, path) && ProcOk(s, act.p);
    OnlyMine(s, act, path);
    if Untouched(s, Step(s, act), path) {
      if path in s.owner { OwnerStays(s, act, path); }
      if path in s.files && (path.Latest? || path.Outside?) { OfferedStays(s, act, path, s.files[path]); }
    } else {
      var c := s.procs[act.p];
      match c.script[|c.done|].job
      case Exclusive(_, _) => ExclusiveFileOk(s, act, path);
      case Replace(_, _) => ReplaceFileOk(s, act, path);
      case Print(_) =>
    }
  }

  lemma StepInv(s: State, act: Action)
    requires Inv(s) && Enabled(s, act)
    ensures Inv(Step(s, act))
  {
    var s' := Step(s, act);
    StepTempsApart(s, act);
    forall q: nat | q < |s'.procs| ensures ProcOk(s', q) { StepProcOk(s, act, q); }
    forall path ensures FileOk(s', path) { StepFileOk(s, act, path); }
  }
}
