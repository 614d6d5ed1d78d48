/** The registry every declared catalog object gets its OID from: one counter, one record a name. */
module OidRegistry {
  import opened Wrappers

  const FIRST_USER_OID := 16384
  const I32_MAX := 0x7fff_ffff

  /** What is asked for: the keys PostgreSQL itself keeps unique. */
  datatype Request =
    | Database(name: string)
    | Schema(db: string, name: string)
    | Relation(db: string, schema: string, name: string)

  /** A relation is two objects, its pg_class row and its row type. */
  datatype Answer = One(oid: int) | Two(oid: int, rowtype: int)

  /** The three tables and the counter, which no allocation has written yet when it is `None`. */
  datatype State = State(
    databases: map<string, int>,
    schemas: map<(string, string), int>,
    relations: map<(string, string, string), (int, int)>,
    next: Option<int>)

  const Empty := State(map[], map[], map[], None)

  /** The counter moved on, or `Error` when the numbers handed out would not fit in an i32. */
  function AdvancedOrExhausted(next: int, count: int): Result<int> {
    if next + count <= I32_MAX then Ok(next + count) else Error
  }

  function Count(r: Request): int {
    if r.Relation? then 2 else 1
  }

  function NextOid(s: State): int {
    if s.next.Some? then s.next.value else FIRST_USER_OID
  }

  function Recorded(s: State, r: Request): Option<Answer> {
    match r
    case Database(name) => if name in s.databases then Some(One(s.databases[name])) else None
    case Schema(db, name) => if (db, name) in s.schemas then Some(One(s.schemas[(db, name)])) else None
    case Relation(db, schema, name) =>
      if (db, schema, name) in s.relations then
        var pair := s.relations[(db, schema, name)];
        Some(Two(pair.0, pair.1))
      else None
  }

  function Fresh(r: Request, next: int): Answer {
    if r.Relation? then Two(next, next + 1) else One(next)
  }

  /** The row a new name's allocation adds to its table. */
  function Insert(s: State, r: Request, next: int): State {
    match r
    case Database(name) => s.(databases := s.databases[name := next])
    case Schema(db, name) => s.(schemas := s.schemas[(db, name) := next])
    case Relation(db, schema, name) => s.(relations := s.relations[(db, schema, name) := (next, next + 1)])
  }

  /** Get or allocate, as one step. */
  function Resolve(s: State, r: Request): (State, Result<Answer>) {
    if Recorded(s, r).Some? then (s, Ok(Recorded(s, r).value))
    else
      match AdvancedOrExhausted(NextOid(s), Count(r))
      case Error => (s, Error)
      case Ok(bumped) => (Insert(s.(next := Some(bumped)), r, NextOid(s)), Ok(Fresh(r, NextOid(s))))
  }

  /** A run of calls, in the order the lock admits them. */
  function After(s: State, calls: seq<Request>): State {
    if calls == [] then s else Resolve(After(s, calls[..|calls| - 1]), calls[|calls| - 1]).0
  }

  function AnswerTo(s: State, calls: seq<Request>, i: nat): Result<Answer>
    requires i < |calls|
  {
    Resolve(After(s, calls[..i]), calls[i]).1
  }

  function Oids(a: Answer): set<int> {
    match a
    case One(oid) => {oid}
    case Two(oid, rowtype) => {oid, rowtype}
  }

  /** Which numbers a name holds. */
  function Holds(s: State, r: Request): set<int> {
    if Recorded(s, r).Some? then Oids(Recorded(s, r).value) else {}
  }

  ghost predicate Issued(s: State, n: int) {
    exists r :: n in Holds(s, r)
  }

  /** The recorded OIDs are exactly the numbers from the first user OID up to the counter, each
      held by one name, and the counter fits in an i32. */
  ghost predicate Inv(s: State) {
    && FIRST_USER_OID <= NextOid(s) <= I32_MAX
    && (forall r, n :: n in Holds(s, r) ==> FIRST_USER_OID <= n < NextOid(s))
    && (forall n :: FIRST_USER_OID <= n < NextOid(s) ==> Issued(s, n))
    && (forall r1, r2 :: r1 != r2 ==> Holds(s, r1) !! Holds(s, r2))
    && (forall r :: Recorded(s, r).Some? ==> Recorded(s, r).value == Fresh(r, Recorded(s, r).value.oid))
  }

  /** What one call changes: nothing, or one new name that takes the next numbers. */
  lemma ResolveChanges(s: State, r: Request, other: Request)
    ensures var (s', a) := Resolve(s, r);
      && (a.Error? <==> Recorded(s, r).None? && NextOid(s) + Count(r) > I32_MAX)
      && (a.Error? || Recorded(s, r).Some? ==> s' == s)
      && (a.Ok? ==> Recorded(s', r) == Some(a.value))
      && (other != r ==> Recorded(s', other) == Recorded(s, other))
      && (a.Ok? && Recorded(s, r).None? ==>
            NextOid(s') == NextOid(s) + Count(r) && Holds(s', r) == Oids(Fresh(r, NextOid(s))))
  {
    var (s', a) := Resolve(s, r);
    if Recorded(s, r).None? && a.Ok? {
      var next := NextOid(s);
      assert Holds(s', r) == Oids(Fresh(r, next));
    }
  }

  lemma InvEmpty()
    ensures Inv(Empty)
  {
  }

  lemma ResolveKeepsInv(s: State, r: Request)
    requires Inv(s)
    ensures Inv(Resolve(s, r).0)
  {
    var (s', a) := Resolve(s, r);
    ResolveChanges(s, r, r);
    if s' != s {
      forall other ensures other != r ==> Holds(s', other) == Holds(s, other) {
        ResolveChanges(s, r, other);
      }
      forall n | FIRST_USER_OID <= n < NextOid(s') ensures Issued(s', n) {
        if n < NextOid(s) {
          assert Issued(s, n);
          var q :| n in Holds(s, q);
          assert n in Holds(s', q);
        } else {
          assert n in Holds(s', r);
        }
      }
      forall r1, r2 | r1 != r2 ensures Holds(s', r1) !! Holds(s', r2) {
        if r1 == r {
          assert Holds(s', r2) == Holds(s, r2);
        } else if r2 == r {
          assert Holds(s', r1) == Holds(s, r1);
        } else {
          assert Holds(s', r1) == Holds(s, r1) && Holds(s', r2) == Holds(s, r2);
        }
      }
      forall q | Recorded(s', q).Some?
        ensures Recorded(s', q).value == Fresh(q, Recorded(s', q).value.oid)
      {
        ResolveChanges(s, r, q);
      }
    }
  }

  /** Every state any run of calls reaches. */
  lemma {:induction false} RunKeepsInv(calls: seq<Request>)
    ensures Inv(After(Empty, calls))
  {
    if calls == [] {
      InvEmpty();
    } else {
      RunKeepsInv(calls[..|calls| - 1]);
      ResolveKeepsInv(After(Empty, calls[..|calls| - 1]), calls[|calls| - 1]);
    }
  }

  /** A recorded name keeps its answer through every further call. */
  lemma {:induction false} RecordedForever(s: State, calls: seq<Request>, r: Request)
    requires Recorded(s, r).Some?
    ensures Recorded(After(s, calls), r) == Recorded(s, r)
  {
    if calls != [] {
      RecordedForever(s, calls[..|calls| - 1], r);
      ResolveChanges(After(s, calls[..|calls| - 1]), calls[|calls| - 1], r);
    }
  }

  lemma {:induction false} AfterSplits(s: State, before: seq<Request>, rest: seq<Request>)
    ensures After(s, before + rest) == After(After(s, before), rest)
    decreases |rest|
  {
    var calls := before + rest;
    if rest == [] {
      assert calls == before;
    } else {
      assert calls[..|calls| - 1] == before + rest[..|rest| - 1];
      AfterSplits(s, before, rest[..|rest| - 1]);
    }
  }

  /** A name answered once answers the same ever after, whatever is called in between. */
  lemma AnswersAreStable(s: State, calls: seq<Request>, i: nat, j: nat)
    requires i < j < |calls| && calls[i] == calls[j] && AnswerTo(s, calls, i).Ok?
    ensures AnswerTo(s, calls, j) == AnswerTo(s, calls, i)
  {
    AnswerIsRecorded(s, calls, i, j);
  }

  lemma AnswerIsRecorded(s: State, calls: seq<Request>, i: nat, j: nat)
    requires i < j <= |calls| && AnswerTo(s, calls, i).Ok?
    ensures Recorded(After(s, calls[..j]), calls[i]) == Some(AnswerTo(s, calls, i).value)
  {
    ResolveChanges(After(s, calls[..i]), calls[i], calls[i]);
    assert calls[..i + 1][..i] == calls[..i];
    assert calls[..j] == calls[..i + 1] + calls[i + 1..j];
    AfterSplits(s, calls[..i + 1], calls[i + 1..j]);
    RecordedForever(After(s, calls[..i + 1]), calls[i + 1..j], calls[i]);
  }

  /** No OID is issued twice: different names answer with disjoint OIDs, in any run. */
  lemma NoOidTwice(calls: seq<Request>, i: nat, j: nat)
    requires i < |calls| && j < |calls| && calls[i] != calls[j]
    requires AnswerTo(Empty, calls, i).Ok? && AnswerTo(Empty, calls, j).Ok?
    ensures Oids(AnswerTo(Empty, calls, i).value) !! Oids(AnswerTo(Empty, calls, j).value)
  {
    AnswerIsRecorded(Empty, calls, i, |calls|);
    AnswerIsRecorded(Empty, calls, j, |calls|);
    assert calls[..|calls|] == calls;
    RunKeepsInv(calls);
    var s := After(Empty, calls);
    assert Holds(s, calls[i]) !! Holds(s, calls[j]);
  }

  // --- in memory -----------------------------------------------------------------------------

  /** The registry with no file behind it; a lock admits one call at a time. */
  class InMemoryRegistry {
    var databases: map<string, int>
    var schemas: map<(string, string), int>
    var relations: map<(string, string, string), (int, int)>
    var nextOid: Option<int>

    function Contents(): State
      reads this
    {
      State(databases, schemas, relations, nextOid)
    }

    constructor ()
      ensures Contents() == Empty
    {
      databases, schemas, relations, nextOid := map[], map[], map[], None;
    }

    method Allocate(count: int) returns (r: Result<int>)
      modifies this`nextOid
      ensures r.Ok? <==> AdvancedOrExhausted(NextOid(old(Contents())), count).Ok?
      ensures r.Ok? ==> r.value == NextOid(old(Contents())) && nextOid == Some(r.value + count)
      ensures r.Error? ==> nextOid == old(nextOid)
    {
      var next := if nextOid.Some? then nextOid.value else FIRST_USER_OID;
      var bumped := AdvancedOrExhausted(next, count);
      if bumped.Error? {
        return Error;
      }
      nextOid := Some(bumped.value);
      return Ok(next);
    }

    method ResolveDatabase(name: string) returns (r: Result<int>)
      modifies this
      ensures Contents() == Resolve(old(Contents()), Database(name)).0
      ensures Resolve(old(Contents()), Database(name)).1 == if r.Ok? then Ok(One(r.value)) else Error
    {
      if name in databases {
        return Ok(databases[name]);
      }
      r := Allocate(1);
      if r.Ok? {
        databases := databases[name := r.value];
      }
    }

    method ResolveSchema(database: string, name: string) returns (r: Result<int>)
      modifies this
      ensures Contents() == Resolve(old(Contents()), Schema(database, name)).0
      ensures Resolve(old(Contents()), Schema(database, name)).1 == if r.Ok? then Ok(One(r.value)) else Error
    {
      var key := (database, name);
      if key in schemas {
        return Ok(schemas[key]);
      }
      r := Allocate(1);
      if r.Ok? {
        schemas := schemas[key := r.value];
      }
    }

    method ResolveRelation(database: string, schema: string, name: string) returns (r: Result<(int, int)>)
      modifies this
      ensures Contents() == Resolve(old(Contents()), Relation(database, schema, name)).0
      ensures Resolve(old(Contents()), Relation(database, schema, name)).1
           == if r.Ok? then Ok(Two(r.value.0, r.value.1)) else Error
    {
      var key := (database, schema, name);
      if key in relations {
        return Ok(relations[key]);
      }
      var oid := Allocate(2);
      if oid.Error? {
        return Error;
      }
      var oids := (oid.value, oid.value + 1);
      relations := relations[key := oids];
      return Ok(oids);
    }
  }
}

/** The registry kept in a file: write transactions, store errors, crashes and reopening. */
module PersistentRegistry {
  import opened Wrappers
  import opened OidRegistry

  /** What a store operation inside a call may fail at; a commit can also report a failure after
      the file has taken it. */
  datatype Fault = NoFault | AtBegin | AtRead | AtWrite | AtCommit | AfterCommit

  datatype Outcome = Answered(a: Answer) | Exhausted | StoreFailed

  /** One call at a time, each inside a write transaction that is dropped unless it commits. */
  class RedbRegistry {
    var store: State

    constructor ()
      ensures store == Empty
    {
      store := Empty;
    }

    /** Numbers for a new name, taken from the transaction's copy of the allocator table. */
    static method Allocate(work: State, count: int) returns (next: int, bumped: Result<State>)
      ensures next == NextOid(work)
      ensures bumped.Ok? <==> AdvancedOrExhausted(next, count).Ok?
      ensures bumped.Ok? ==> bumped.value == work.(next := Some(next + count))
    {
      next := if work.next.Some? then work.next.value else FIRST_USER_OID;
      var b := AdvancedOrExhausted(next, count);
      bumped := if b.Ok? then Ok(work.(next := Some(b.value))) else Error;
    }

    /** Every finished call is the atomic get-or-allocate; a failed one leaves the file alone, or
        has done the whole of it when the failure came after the commit. */
    method Call(r: Request, fault: Fault) returns (out: Outcome)
      modifies this
      ensures out.Answered? ==> Resolve(old(store), r) == (store, Ok(out.a))
      ensures out.Exhausted? ==> Resolve(old(store), r) == (store, Error) && store == old(store)
      ensures out.StoreFailed? && !fault.AfterCommit? ==> store == old(store)
      ensures out.StoreFailed? && fault.AfterCommit? ==> Resolve(old(store), r).1.Ok? && Resolve(old(store), r).0 == store
      ensures fault.NoFault? ==> !out.StoreFailed?
    {
      if fault.AtBegin? { return StoreFailed; }
      var work := store;
      if fault.AtRead? { return StoreFailed; }
      var answer;
      if Recorded(work, r).Some? {
        answer := Recorded(work, r).value;
      } else {
        var next, bumped := Allocate(work, Count(r));
        if bumped.Error? { return Exhausted; }
        if fault.AtWrite? { return StoreFailed; }
        work := Insert(bumped.value, r, next);
        answer := Fresh(r, next);
      }
      if fault.AtCommit? { return StoreFailed; }
      store := work;
      return if fault.AfterCommit? then StoreFailed else Answered(answer);
    }
  }

  // --- every step, with crashes --------------------------------------------------------------

  /** How far the open write transaction has come. */
  datatype Phase = Begun | Missing | Bumped(next: int) | Ready(a: Answer)

  /** A call a client has made; `since` is how long the history was then. */
  datatype Asked = Asked(req: Request, since: nat)

  datatype Tx = Tx(client: nat, call: Asked, phase: Phase, work: State)

  /** What a call that ended did, in the order the transactions ended. */
  datatype Entry = Entry(client: nat, req: Request, result: Result<Answer>)

  /** How a client's call ended; `at` is its place in the history when it was served. */
  datatype Delivery = Delivery(call: Asked, out: Outcome, at: nat)

  /** The file, the calls that wait for the write lock, the one open write transaction, and the
      outcomes not yet delivered. `log` is the history of calls the store has served, delivered or
      not. */
  datatype System = System(disk: State, waiting: map<nat, Asked>, tx: Option<Tx>, outcomes: map<nat, Delivery>,
                           log: seq<Entry>, open: bool)

  const Boot := System(Empty, map[], None, map[], [], false)

  function Requests(log: seq<Entry>): seq<Request> {
    seq(|log|, i requires 0 <= i < |log| => log[i].req)
  }

  /** One step: of a client, of the store failing, of the machine going down and coming back. */
  datatype Step = Ask(client: nat, req: Request) | Begin(client: nat) | Look | Bump | Write | Commit
                | Fail | LateFail | Return(client: nat) | Crash | Reopen

  function Finish(s: System, out: Outcome): System
    requires s.tx.Some?
  {
    s.(tx := None, outcomes := s.outcomes[s.tx.value.client := Delivery(s.tx.value.call, out, |s.log|)])
  }

  /** The client has a call under way. */
  predicate Busy(s: System, c: nat) {
    c in s.waiting || c in s.outcomes || (s.tx.Some? && s.tx.value.client == c)
  }

  predicate Enabled(s: System, step: Step) {
    match step
    case Ask(c, _) => s.open && !Busy(s, c)
    case Begin(c) => s.open && s.tx.None? && c in s.waiting
    case Look => s.tx.Some? && s.tx.value.phase.Begun?
    case Bump => s.tx.Some? && s.tx.value.phase.Missing?
    case Write => s.tx.Some? && s.tx.value.phase.Bumped?
    case Commit => s.tx.Some? && s.tx.value.phase.Ready?
    case Fail => s.tx.Some?
    case LateFail => s.tx.Some? && s.tx.value.phase.Ready?
    case Return(c) => c in s.outcomes
    case Crash => true
    case Reopen => !s.open
  }

  function Take(s: System, step: Step): System
    requires Enabled(s, step)
  {
    match step
    case Ask(c, r) => s.(waiting := s.waiting[c := Asked(r, |s.log|)])
    case Begin(c) => s.(waiting := s.waiting - {c}, tx := Some(Tx(c, s.waiting[c], Begun, s.disk)))
    case Look =>
      var t := s.tx.value;
      var found := Recorded(t.work, t.call.req);
      s.(tx := Some(t.(phase := if found.Some? then Ready(found.value) else Missing)))
    case Bump =>
      var t := s.tx.value;
      var next := NextOid(t.work);
      var bumped := AdvancedOrExhausted(next, Count(t.call.req));
      if bumped.Error? then Finish(s, Exhausted).(log := s.log + [Entry(t.client, t.call.req, Error)])
      else s.(tx := Some(t.(phase := Bumped(next), work := t.work.(next := Some(bumped.value)))))
    case Write =>
      var t := s.tx.value;
      var next := t.phase.next;
      s.(tx := Some(t.(phase := Ready(Fresh(t.call.req, next)), work := Insert(t.work, t.call.req, next))))
    case Commit =>
      var t := s.tx.value;
      Finish(s, Answered(t.phase.a)).(disk := t.work, log := s.log + [Entry(t.client, t.call.req, Ok(t.phase.a))])
    case Fail => Finish(s, StoreFailed)
    case LateFail =>
      var t := s.tx.value;
      Finish(s, StoreFailed).(disk := t.work, log := s.log + [Entry(t.client, t.call.req, Ok(t.phase.a))])
    case Return(c) => s.(outcomes := s.outcomes - {c})
    case Crash => s.(waiting := map[], tx := None, outcomes := map[], open := false)
    case Reopen => s.(open := true)
  }

  /** The open transaction has done part of the atomic step over the committed file. */
  ghost predicate TxInv(disk: State, t: Tx) {
    match t.phase
    case Begun => t.work == disk
    case Missing => t.work == disk && Recorded(disk, t.call.req).None?
    case Bumped(next) =>
      && Recorded(disk, t.call.req).None? && next == NextOid(disk) && next + Count(t.call.req) <= I32_MAX
      && t.work == disk.(next := Some(next + Count(t.call.req)))
    case Ready(a) => Resolve(disk, t.call.req) == (t.work, Ok(a))
  }

  /** The file holds exactly what the atomic machine holds after the logged calls, each of which
      was answered as that machine answers it. */
  ghost predicate DiskInv(disk: State, log: seq<Entry>) {
    && disk == After(Empty, Requests(log))
    && forall i :: 0 <= i < |log| ==> log[i].result == AnswerTo(Empty, Requests(log), i)
  }

  /** What a client is told about its own call was logged for that call, once it had been made. */
  ghost predicate OutcomesInv(outcomes: map<nat, Delivery>, log: seq<Entry>) {
    forall c :: c in outcomes ==> Truthful(c, outcomes[c], log)
  }

  /** The result a client reads in its outcome. */
  function Told(out: Outcome): Result<Answer> {
    if out.Answered? then Ok(out.a) else Error
  }

  predicate Truthful(c: nat, d: Delivery, log: seq<Entry>) {
    !d.out.StoreFailed? ==> d.call.since <= d.at < |log| && log[d.at] == Entry(c, d.call.req, Told(d.out))
  }

  /** A call is never younger than the history it was made in. */
  ghost predicate CallsInv(s: System) {
    && (forall c :: c in s.waiting ==> s.waiting[c].since <= |s.log|)
    && (s.tx.Some? ==> s.tx.value.call.since <= |s.log|)
  }

  ghost predicate SystemInv(s: System) {
    DiskInv(s.disk, s.log) && OutcomesInv(s.outcomes, s.log) && CallsInv(s) && (s.tx.Some? ==> TxInv(s.disk, s.tx.value))
  }

  lemma Logged(disk: State, log: seq<Entry>, e: Entry)
    requires DiskInv(disk, log) && e.result == Resolve(disk, e.req).1
    ensures DiskInv(Resolve(disk, e.req).0, log + [e])
  {
    var calls, more := Requests(log), Requests(log + [e]);
    assert more == calls + [e.req];
    assert more[..|more| - 1] == calls;
    forall i | 0 <= i < |log| + 1 ensures (log + [e])[i].result == AnswerTo(Empty, more, i) {
      assert more[..i] == calls[..i];
      assert calls[..|calls|] == calls;
    }
  }

  lemma StaysTruthful(outcomes: map<nat, Delivery>, log: seq<Entry>, e: Entry, c: nat, d: Delivery)
    requires OutcomesInv(outcomes, log) && Truthful(c, d, log + [e])
    ensures OutcomesInv(outcomes[c := d], log + [e])
  {
    var after := outcomes[c := d];
    forall k | k in after ensures Truthful(k, after[k], log + [e]) {
      if k != c {
        assert Truthful(k, outcomes[k], log);
      }
    }
  }

  lemma StepKeepsInv(s: System, step: Step)
    requires SystemInv(s) && Enabled(s, step)
    ensures SystemInv(Take(s, step))
  {
    if step.Bump? || step.Commit? || step.LateFail? {
      EndKeepsInv(s, step);
    }
  }

  lemma EndKeepsInv(s: System, step: Step)
    requires SystemInv(s) && Enabled(s, step) && (step.Bump? || step.Commit? || step.LateFail?)
    ensures SystemInv(Take(s, step))
  {
    var t := s.tx.value;
    if step.Commit? || step.LateFail? {
      var e := Entry(t.client, t.call.req, Ok(t.phase.a));
      var out := if step.Commit? then Answered(t.phase.a) else StoreFailed;
      Logged(s.disk, s.log, e);
      StaysTruthful(s.outcomes, s.log, e, t.client, Delivery(t.call, out, |s.log|));
    } else if AdvancedOrExhausted(NextOid(t.work), Count(t.call.req)).Error? {
      var e := Entry(t.client, t.call.req, Error);
      Logged(s.disk, s.log, e);
      StaysTruthful(s.outcomes, s.log, e, t.client, Delivery(t.call, Exhausted, |s.log|));
    }
  }

  /** A run of the system from an absent file. */
  predicate Runs(trace: seq<System>, steps: seq<Step>) {
    && |trace| == |steps| + 1 && trace[0] == Boot
    && forall i :: 0 <= i < |steps| ==> Enabled(trace[i], steps[i]) && trace[i + 1] == Take(trace[i], steps[i])
  }

  lemma {:induction false} RunsKeepInv(trace: seq<System>, steps: seq<Step>, n: nat)
    requires Runs(trace, steps) && n < |trace|
    ensures SystemInv(trace[n])
  {
    if n == 0 {
      assert Requests([]) == [];
    } else {
      RunsKeepInv(trace, steps, n - 1);
      StepKeepsInv(trace[n - 1], steps[n - 1]);
    }
  }

  /** From one step to another the client makes no further call. */
  predicate OneCall(steps: seq<Step>, c: nat, m: nat, n: nat)
    requires m < n <= |steps|
  {
    forall k :: m < k < n ==> !(steps[k].Ask? && steps[k].client == c)
  }

  /** While a client has a call under way, it is the one it made last. */
  ghost predicate StillThat(s: System, c: nat, call: Asked) {
    && (c in s.waiting ==> s.waiting[c] == call)
    && (s.tx.Some? && s.tx.value.client == c ==> s.tx.value.call == call)
    && (c in s.outcomes ==> s.outcomes[c].call == call)
  }

  lemma StepStays(s: System, step: Step, c: nat, call: Asked)
    requires Enabled(s, step) && StillThat(s, c, call) && !(step.Ask? && step.client == c)
    ensures StillThat(Take(s, step), c, call)
  {
  }

  lemma {:induction false} CallStays(trace: seq<System>, steps: seq<Step>, c: nat, r: Request, m: nat, n: nat)
    requires Runs(trace, steps) && m < n <= |steps| && steps[m] == Ask(c, r) && OneCall(steps, c, m, n)
    ensures StillThat(trace[n], c, Asked(r, |trace[m].log|))
  {
    var k := n - 1;
    if m < k {
      CallStays(trace, steps, c, r, m, k);
      StepStays(trace[k], steps[k], c, Asked(r, |trace[m].log|));
    }
  }

  /** The registry is linearizable: a call made at step `m` and answered by step `n` took its place
      in the history between the two, as that client's call, and was told what the atomic registry
      answers at that place. */
  lemma ClientsAreToldTheTruth(trace: seq<System>, steps: seq<Step>, c: nat, r: Request, m: nat, n: nat)
    requires Runs(trace, steps) && m < n <= |steps| && steps[m] == Ask(c, r) && OneCall(steps, c, m, n)
    requires c in trace[n].outcomes && !trace[n].outcomes[c].out.StoreFailed?
    ensures var d, log := trace[n].outcomes[c], trace[n].log;
      && |trace[m].log| <= d.at < |log| && log[d.at].client == c && log[d.at].req == r
      && AnswerTo(Empty, Requests(log), d.at) == Told(d.out)
  {
    CallStays(trace, steps, c, r, m, n);
    RunsKeepInv(trace, steps, n);
    assert Truthful(c, trace[n].outcomes[c], trace[n].log);
  }

  /** A call made after another had been answered comes after it in the history. */
  lemma AnsweredInOrder(trace: seq<System>, steps: seq<Step>, c: nat, n1: nat, c2: nat, r2: Request, m2: nat, n2: nat)
    requires Runs(trace, steps) && n1 <= m2 < n2 <= |steps|
    requires steps[m2] == Ask(c2, r2) && OneCall(steps, c2, m2, n2)
    requires c in trace[n1].outcomes && !trace[n1].outcomes[c].out.StoreFailed?
    requires c2 in trace[n2].outcomes && !trace[n2].outcomes[c2].out.StoreFailed?
    ensures trace[n1].outcomes[c].at < trace[n2].outcomes[c2].at
  {
    RunsKeepInv(trace, steps, n1);
    assert Truthful(c, trace[n1].outcomes[c], trace[n1].log);
    LogGrows(trace, steps, n1, m2);
    ClientsAreToldTheTruth(trace, steps, c2, r2, m2, n2);
  }

  /** The file refines the atomic registry: at every moment of every run, crashes included, it
      holds the state some run of whole calls leaves, so no half-made allocation is visible. */
  lemma NoHalfAllocation(trace: seq<System>, steps: seq<Step>, n: nat)
    requires Runs(trace, steps) && n < |trace|
    ensures trace[n].disk == After(Empty, Requests(trace[n].log)) && Inv(trace[n].disk)
    ensures forall i :: 0 <= i < |trace[n].log| ==>
      trace[n].log[i].result == AnswerTo(Empty, Requests(trace[n].log), i)
  {
    RunsKeepInv(trace, steps, n);
    RunKeepsInv(Requests(trace[n].log));
  }

  lemma {:induction false} LogGrows(trace: seq<System>, steps: seq<Step>, m: nat, n: nat)
    requires Runs(trace, steps) && m <= n < |trace|
    ensures trace[m].log <= trace[n].log
  {
    if m < n {
      LogGrows(trace, steps, m, n - 1);
    }
  }

  /** What a name was once answered, it is answered after any number of crashes and reopenings. */
  lemma DurableAnswers(trace: seq<System>, steps: seq<Step>, m: nat, n: nat, i: nat, j: nat)
    requires Runs(trace, steps) && m <= n < |trace|
    requires i < |trace[m].log| && trace[m].log[i].result.Ok?
    requires j < |trace[n].log| && trace[n].log[j].req == trace[m].log[i].req && i < j
    ensures trace[n].log[j].result == trace[m].log[i].result
  {
    LogGrows(trace, steps, m, n);
    RunsKeepInv(trace, steps, n);
    AnswersAreStable(Empty, Requests(trace[n].log), i, j);
  }

  // --- a call that nothing disturbs ----------------------------------------------------------

  /** The steps can be taken one after the other. */
  predicate CanTake(s: System, steps: seq<Step>)
    decreases |steps|
  {
    steps == [] || (Enabled(s, steps[0]) && CanTake(Take(s, steps[0]), steps[1..]))
  }

  function TakeAll(s: System, steps: seq<Step>): System
    requires CanTake(s, steps)
    decreases |steps|
  {
    if steps == [] then s else TakeAll(Take(s, steps[0]), steps[1..])
  }

  /** What a client's own steps are, when nothing fails. */
  function CallSteps(s: System, c: nat, r: Request): seq<Step> {
    [Ask(c, r), Begin(c), Look]
    + if Recorded(s.disk, r).Some? then [Commit]
      else if NextOid(s.disk) + Count(r) <= I32_MAX then [Bump, Write, Commit] else [Bump]
  }

  lemma TakeStep(s: System, step: Step, rest: seq<Step>)
    requires Enabled(s, step) && CanTake(Take(s, step), rest)
    ensures CanTake(s, [step] + rest) && TakeAll(s, [step] + rest) == TakeAll(Take(s, step), rest)
  {
    assert ([step] + rest)[1..] == rest;
  }

  lemma LastSteps(s: System, r: Request)
    requires s.tx.Some? && s.tx.value.phase.Missing? && s.tx.value.work == s.disk && s.tx.value.call.req == r
    requires Recorded(s.disk, r).None?
    ensures var steps := if NextOid(s.disk) + Count(r) <= I32_MAX then [Bump, Write, Commit] else [Bump];
      && CanTake(s, steps) && s.tx.value.client in TakeAll(s, steps).outcomes
      && TakeAll(s, steps).disk == Resolve(s.disk, r).0
      && Resolve(s.disk, r).1 == Told(TakeAll(s, steps).outcomes[s.tx.value.client].out)
      && !TakeAll(s, steps).outcomes[s.tx.value.client].out.StoreFailed?
  {
    if NextOid(s.disk) + Count(r) <= I32_MAX {
      var a := Take(s, Bump);
      var b := Take(a, Write);
      TakeStep(b, Commit, []);
      TakeStep(a, Write, [Commit]);
      TakeStep(s, Bump, [Write, Commit]);
      assert [Commit] + [] == [Commit] && [Write] + [Commit] == [Write, Commit] && [Bump] + [Write, Commit] == [Bump, Write, Commit];
    } else {
      TakeStep(s, Bump, []);
      assert [Bump] + [] == [Bump];
    }
  }

  /** A client whose call nothing disturbs is always served: its steps can be taken, and it is told
      what the atomic registry answers, whose state the file then holds. */
  lemma CallIsServed(s: System, c: nat, r: Request)
    requires s.open && s.tx.None? && !Busy(s, c)
    ensures var steps := CallSteps(s, c, r);
      && CanTake(s, steps) && c in TakeAll(s, steps).outcomes
      && TakeAll(s, steps).disk == Resolve(s.disk, r).0
      && Resolve(s.disk, r).1 == Told(TakeAll(s, steps).outcomes[c].out)
      && !TakeAll(s, steps).outcomes[c].out.StoreFailed?
  {
    var asked := Take(s, Ask(c, r));
    var begun := Take(asked, Begin(c));
    var looked := Take(begun, Look);
    var last := if Recorded(s.disk, r).Some? then [Commit]
                else if NextOid(s.disk) + Count(r) <= I32_MAX then [Bump, Write, Commit] else [Bump];
    if Recorded(s.disk, r).Some? {
      TakeStep(looked, Commit, []);
      assert [Commit] + [] == [Commit];
    } else {
      LastSteps(looked, r);
    }
    TakeStep(begun, Look, last);
    TakeStep(asked, Begin(c), [Look] + last);
    TakeStep(s, Ask(c, r), [Begin(c)] + ([Look] + last));
    assert [Ask(c, r)] + ([Begin(c)] + ([Look] + last)) == CallSteps(s, c, r);
  }
}
