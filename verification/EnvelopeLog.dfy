/**
 The append-only table of failure-envelope revisions: a guarded insert behind two triggers,
 replay detection, frozen identity, verified loads, and the migration that copies every row
 back through the guards.
 */
module EnvelopeLog {
  import opened Basics

  type Bytes = string

  /** The columns projected out of an envelope, next to its id and revision. */
  datatype Projection = Projection(runId: string, operationId: Option<string>, attemptNo: Option<int>,
                                   correlationId: Option<string>, component: string, domain: string,
                                   failureKind: string, reasonCode: string, currentOutcome: Option<string>,
                                   occurredAt: string, observedAt: string)

  datatype Envelope = Envelope(failureId: string, revision: int, projection: Projection, body: string)

  /** The four fields that may not change between revisions of one failure. */
  datatype Identity = Identity(correlationId: Option<string>, runId: string, operationId: Option<string>,
                               attemptNo: Option<int>)

  function IdentityOf(p: Projection): Identity {
    Identity(p.correlationId, p.runId, p.operationId, p.attemptNo)
  }

  /** Correlation, run, operation and attempt agree; everything else may differ. */
  ghost predicate SameIdentity(p: Projection, q: Projection) {
    && p.correlationId == q.correlationId && p.runId == q.runId
    && p.operationId == q.operationId && p.attemptNo == q.attemptNo
  }

  lemma IdentityMeans(p: Projection, q: Projection)
    ensures IdentityOf(p) == IdentityOf(q) <==> SameIdentity(p, q)
  {
  }

  /** A stored row; `typed` says that bytes and digest have their declared types. */
  datatype Row = Row(failureId: string, revision: int, typed: bool, bytes: Bytes, digest: string,
                     projection: Projection)

  type Key = (string, int)
  type Table = map<Key, Row>

  /** The product outcomes of the current schema. */
  const CURRENT_OUTCOMES := {"succeeded_with_results", "succeeded_empty", "degraded_with_results",
                             "needs_attention", "failed", "cancelled"}

  /** The outcome column is empty or holds one of the outcomes. */
  predicate OutcomeAmong(p: Projection, outcomes: set<string>) {
    p.currentOutcome.Some? ==> p.currentOutcome.value in outcomes
  }

  /** Canonical printing, strict parsing, the digest, and the CHECK constraints of the table: the
      outcomes of the schema's version, and the rest, which is the same in every version. */
  datatype Codec = Codec(print_: Envelope -> Bytes, parse: Bytes -> Option<Envelope>, hash: Bytes -> string,
                         bounded: Row -> bool, outcomes: set<string>)
  {
    predicate Allows(row: Row) {
      bounded(row) && OutcomeAmong(row.projection, outcomes)
    }

    /** What is parsed parses back from its canonical bytes. */
    ghost predicate RoundTrips() {
      forall raw :: parse(raw).Some? ==> parse(print_(parse(raw).value)) == parse(raw)
    }
  }

  function KeyOf(row: Row): Key {
    (row.failureId, row.revision)
  }

  function RowOf(c: Codec, e: Envelope): Row {
    Row(e.failureId, e.revision, true, c.print_(e), c.hash(c.print_(e)), e.projection)
  }

  /** The envelope of a row whose bytes, digest and projected columns all agree. */
  function Verified(c: Codec, row: Row): Option<Envelope> {
    if !row.typed || c.hash(row.bytes) != row.digest then None else
    match c.parse(row.bytes)
    case None => None
    case Some(e) =>
      if c.print_(e) == row.bytes && row.failureId == e.failureId && row.revision == e.revision
        && row.projection == e.projection
      then Some(e) else None
  }

  /** A row verifies as an envelope exactly when it is the row that storing the envelope writes. */
  lemma VerifiedExactly(c: Codec, row: Row, e: Envelope)
    ensures Verified(c, row) == Some(e) <==> row == RowOf(c, e) && c.parse(c.print_(e)) == Some(e)
  {
  }

  // ----- The guarded insert

  /** The revisions stored for one failure. */
  function Revisions(t: Table, id: string): set<int> {
    set k | k in t && k.0 == id :: k.1
  }

  lemma {:induction false} Largest(s: set<int>) returns (m: int)
    requires s != {}
    ensures m in s && forall x :: x in s ==> x <= m
  {
    m := SomeElement(s);
    var rest := s - {m};
    if rest != {} {
      var n := Largest(rest);
      m := if n <= m then m else n;
    }
    forall x | x in s ensures x <= m {
      assert x in rest || x in s - rest;
    }
  }

  function Maximum(s: set<int>): (m: int)
    requires s != {}
    ensures m in s && forall x :: x in s ==> x <= m
  {
    assert exists m :: m in s && forall x :: x in s ==> x <= m by { var m := Largest(s); }
    var m :| m in s && forall x :: x in s ==> x <= m;
    m
  }

  /** COALESCE(MAX(revision) + 1, 1). */
  function NextRevision(t: Table, id: string): int {
    if Revisions(t, id) == {} then 1 else Maximum(Revisions(t, id)) + 1
  }

  datatype Insertion = Inserted(table: Table) | Immutable | OutOfSequence | CheckFailed

  /** An INSERT with its two triggers and the CHECK constraints. */
  function Insert(c: Codec, t: Table, row: Row): Insertion {
    if KeyOf(row) in t then Immutable
    else if row.revision != NextRevision(t, row.failureId) then OutOfSequence
    else if !c.Allows(row) then CheckFailed
    else Inserted(t[KeyOf(row) := row])
  }

  // ----- What the table keeps

  ghost predicate Keyed(t: Table) {
    forall k :: k in t ==> KeyOf(t[k]) == k
  }

  /** The revisions of every failure are exactly 1, 2, ..., n. */
  ghost predicate Contiguous(t: Table) {
    forall k :: k in t ==> k.1 >= 1 && (k.1 > 1 ==> (k.0, k.1 - 1) in t)
  }

  ghost predicate AllVerified(c: Codec, t: Table) {
    forall k :: k in t ==> Verified(c, t[k]).Some?
  }

  ghost predicate AllAllowed(c: Codec, t: Table) {
    forall k :: k in t ==> c.Allows(t[k])
  }

  /** All revisions of a failure share one identity. */
  ghost predicate IdentityFrozen(t: Table) {
    forall j, k :: j in t && k in t && j.0 == k.0 ==> SameIdentity(t[j].projection, t[k].projection)
  }

  ghost predicate Sound(c: Codec, t: Table) {
    Keyed(t) && Contiguous(t) && AllVerified(c, t) && IdentityFrozen(t)
  }

  /** In a contiguous table the next revision is free and follows the last one. */
  lemma NextIsFree(t: Table, id: string)
    requires Contiguous(t)
    ensures NextRevision(t, id) >= 1 && (id, NextRevision(t, id)) !in t
    ensures NextRevision(t, id) > 1 ==> (id, NextRevision(t, id) - 1) in t
  {
    var revs := Revisions(t, id);
    assert forall r :: (id, r) in t ==> (id, r).1 in revs;
  }

  lemma {:induction false} DownwardClosed(t: Table, id: string, high: int, low: int)
    requires Contiguous(t) && (id, high) in t && 1 <= low <= high
    ensures (id, low) in t
    decreases high - low
  {
    if low < high {
      assert (id, high).1 > 1;
      DownwardClosed(t, id, high - 1, low);
    }
  }

  /** A contiguous table holds a revision exactly when it is between 1 and the last one. */
  lemma ContiguousExactly(t: Table, id: string, r: int)
    requires Contiguous(t)
    ensures (id, r) in t <==> 1 <= r < NextRevision(t, id)
  {
    NextIsFree(t, id);
    if (id, r) in t {
      assert (id, r).1 in Revisions(t, id);
    } else if 1 <= r < NextRevision(t, id) {
      DownwardClosed(t, id, NextRevision(t, id) - 1, r);
    }
  }

  /** Each accepted INSERT keeps the numbering gapless and adds exactly one row. */
  lemma InsertKeepsContiguous(c: Codec, t: Table, row: Row)
    requires Contiguous(t) && Keyed(t) && Insert(c, t, row).Inserted?
    ensures Contiguous(Insert(c, t, row).table) && Keyed(Insert(c, t, row).table)
    ensures KeyOf(row) !in t && Insert(c, t, row).table == t[KeyOf(row) := row]
  {
    NextIsFree(t, row.failureId);
  }

  // ----- Storing a revision

  datatype Input = Raw(bytes: Bytes) | Model(envelope: Envelope) | Other

  datatype Call = Call(inTransaction: bool, input: Input)

  datatype Reason = TransactionRequired | AdmissionFailed | StorageFailed | IntegrityFailed
                  | RevisionConflict | IdentityConflict | RevisionSequence | NotFound | SchemaFailed

  datatype Stored = Created(id: string, revision: int, digest: string)
                  | ExactReplay(id: string, revision: int, digest: string)
                  | Refused(reason: Reason)

  function Admit(c: Codec, input: Input): Option<Envelope> {
    match input
    case Raw(bytes) => c.parse(bytes)
    case Model(e) => c.parse(c.print_(e))
    case Other => None
  }

  /** What one call answers, decided on the table as it finds it. */
  function Answer(c: Codec, t: Table, call: Call): Stored {
    if !call.inTransaction then Refused(TransactionRequired) else
    match Admit(c, call.input)
    case None => Refused(AdmissionFailed)
    case Some(e) =>
      var row := RowOf(c, e);
      if KeyOf(row) in t then
        var existing := t[KeyOf(row)];
        match Verified(c, existing)
        case None => Refused(IntegrityFailed)
        case Some(known) =>
          if known == e && existing.bytes == row.bytes && existing.digest == row.digest
          then ExactReplay(e.failureId, e.revision, row.digest) else Refused(RevisionConflict)
      else
        var next := NextRevision(t, e.failureId);
        if Revisions(t, e.failureId) != {} && (e.failureId, next - 1) !in t then Refused(IntegrityFailed)
        else if Revisions(t, e.failureId) != {}
          && Verified(c, t[(e.failureId, next - 1)]).None? then Refused(IntegrityFailed)
        else if Revisions(t, e.failureId) != {} &&
                IdentityOf(e.projection) != IdentityOf(Verified(c, t[(e.failureId, next - 1)]).value.projection)
        then Refused(IdentityConflict)
        else if e.revision != (if Revisions(t, e.failureId) == {} then 1
          else Verified(c, t[(e.failureId, next - 1)]).value.revision + 1)
        then Refused(RevisionSequence)
        else if Insert(c, t, row).Inserted? then Created(e.failureId, e.revision, row.digest)
        else Refused(StorageFailed)
  }

  /** The table after a call. */
  function After(c: Codec, t: Table, call: Call): Table {
    if Answer(c, t, call).Created? then
      var row := RowOf(c, Admit(c, call.input).value);
      t[KeyOf(row) := row]
    else t
  }

  class Log {
    const codec: Codec
    var table: Table

    constructor (codec: Codec)
      ensures this.codec == codec && table == map[]
    {
      this.codec, this.table := codec, map[];
    }

    /** The INSERT statement: the triggers and the CHECK may abort it. */
    method Execute(row: Row) returns (ok: bool)
      modifies this`table
      ensures ok == Insert(codec, old(table), row).Inserted?
      ensures table == if ok then old(table)[KeyOf(row) := row] else old(table)
    {
      var result := Insert(codec, table, row);
      ok := result.Inserted?;
      if ok {
        table := result.table;
      }
    }

    method Store(call: Call) returns (stored: Stored)
      requires Keyed(table)
      modifies this`table
      ensures stored == Answer(codec, old(table), call)
      ensures table == After(codec, old(table), call)
    {
      if !call.inTransaction {
        return Refused(TransactionRequired);
      }
      var admitted := Admit(codec, call.input);
      if admitted.None? {
        return Refused(AdmissionFailed);
      }
      var e := admitted.value;
      var row := RowOf(codec, e);
      var id := e.failureId;
      if KeyOf(row) in table {
        var existing := Verified(codec, table[KeyOf(row)]);
        if existing.None? {
          return Refused(IntegrityFailed);
        }
        if existing.value == e && table[KeyOf(row)].bytes == row.bytes && table[KeyOf(row)].digest == row.digest {
          return ExactReplay(id, e.revision, row.digest);
        }
        return Refused(RevisionConflict);
      }
      var expected := 1;
      if Revisions(table, id) != {} {
        var last := Maximum(Revisions(table, id));
        var predecessor := Verified(codec, table[(id, last)]);
        if predecessor.None? {
          return Refused(IntegrityFailed);
        }
        expected := predecessor.value.revision + 1;
        if IdentityOf(e.projection) != IdentityOf(predecessor.value.projection) {
          return Refused(IdentityConflict);
        }
      }
      if e.revision != expected {
        return Refused(RevisionSequence);
      }
      var ok := Execute(row);
      stored := if ok then Created(id, e.revision, row.digest) else Refused(StorageFailed);
    }

    method Load(id: string, revision: int) returns (result: Option<Envelope>, reason: Reason)
      requires Keyed(table)
      ensures result == Loaded(codec, table, id, revision)
      ensures result.None? ==> reason == if (id, revision) in table then IntegrityFailed else NotFound
    {
      reason := NotFound;
      if (id, revision) !in table {
        return None, NotFound;
      }
      result := Verified(codec, table[(id, revision)]);
      reason := IntegrityFailed;
      if result.Some? && (result.value.failureId != id || result.value.revision != revision) {
        return None, IntegrityFailed;
      }
    }
  }

  /** What a load of one exact reference returns. */
  function Loaded(c: Codec, t: Table, id: string, revision: int): Option<Envelope> {
    if (id, revision) in t then Verified(c, t[(id, revision)]) else None
  }

  // ----- One call

  /** The row written for an admitted envelope verifies as that envelope. */
  lemma AdmittedVerifies(c: Codec, input: Input)
    requires c.RoundTrips() && Admit(c, input).Some?
    ensures Verified(c, RowOf(c, Admit(c, input).value)) == Admit(c, input)
  {
  }

  /** The checks in the code leave nothing for the triggers: on a sound table an INSERT is only
      attempted when both would let it pass. */
  lemma TriggersNeverFire(c: Codec, t: Table, call: Call)
    requires Sound(c, t)
    ensures Answer(c, t, call) == Refused(StorageFailed) ==>
      Admit(c, call.input).Some? && Insert(c, t, RowOf(c, Admit(c, call.input).value)).CheckFailed?
  {
    hide OutcomeAmong;
    if Answer(c, t, call) == Refused(StorageFailed) {
      NextIsFree(t, Admit(c, call.input).value.failureId);
    }
  }

  /** What the code finds out about the last revision of a failure in a sound table. */
  lemma LastRevision(c: Codec, t: Table, id: string)
    requires Sound(c, t)
    ensures Revisions(t, id) == {} ==> NextRevision(t, id) == 1 && forall k :: k in t ==> k.0 != id
    ensures Revisions(t, id) != {} ==>
      && (id, NextRevision(t, id) - 1) in t
      && Verified(c, t[(id, NextRevision(t, id) - 1)]).Some?
      && Verified(c, t[(id, NextRevision(t, id) - 1)]).value.revision == NextRevision(t, id) - 1
      && forall k :: k in t && k.0 == id ==>
           IdentityOf(t[k].projection) == IdentityOf(Verified(c, t[(id, NextRevision(t, id) - 1)]).value.projection)
    ensures (id, NextRevision(t, id)) !in t
  {
    NextIsFree(t, id);
    forall k | k in t && k.0 == id ensures k.1 in Revisions(t, id) {
    }
  }

  /** A call creates a row exactly when it brings the next revision of its failure, under the
      failure's identity, inside a transaction, within the table's CHECK constraints. */
  lemma CreatesExactlyNext(c: Codec, t: Table, call: Call)
    requires Sound(c, t)
    ensures Answer(c, t, call).Created? <==>
      && call.inTransaction && Admit(c, call.input).Some?
      && var e := Admit(c, call.input).value;
         e.revision == NextRevision(t, e.failureId) && FitsIdentity(t, e) && c.Allows(RowOf(c, e))
  {
    hide Sound, Verified, NextRevision, Revisions, Admit, IdentityOf, OutcomeAmong, FitsIdentity;
    if call.inTransaction && Admit(c, call.input).Some? {
      LastRevision(c, t, Admit(c, call.input).value.failureId);
      FitsWhenLastDoes(c, t, Admit(c, call.input).value);
    }
  }

  /** The envelope has the identity of every revision of its failure. */
  ghost predicate FitsIdentity(t: Table, e: Envelope) {
    forall k :: k in t && k.0 == e.failureId ==> SameIdentity(t[k].projection, e.projection)
  }

  lemma FitsWhenLastDoes(c: Codec, t: Table, e: Envelope)
    requires Sound(c, t)
    ensures FitsIdentity(t, e) <==>
      (Revisions(t, e.failureId) != {} ==>
         var last := Verified(c, t[(e.failureId, NextRevision(t, e.failureId) - 1)]);
         last.Some? && IdentityOf(last.value.projection) == IdentityOf(e.projection))
  {
    LastRevision(c, t, e.failureId);
    if Revisions(t, e.failureId) != {} {
      var key := (e.failureId, NextRevision(t, e.failureId) - 1);
      var last := Verified(c, t[key]).value;
      hide Sound, NextRevision, Revisions, IdentityOf;
      assert key in t && t[key].projection == last.projection;
      IdentityMeans(last.projection, e.projection);
      forall k | k in t && k.0 == e.failureId
        ensures SameIdentity(t[k].projection, e.projection) <==> SameIdentity(last.projection, e.projection)
      {
        IdentityMeans(t[k].projection, last.projection);
      }
    }
  }

  /** Why a sound table refuses a call. It is never found corrupt, and the last reason is the one of
      `TriggersNeverFire`. */
  lemma RefusedExactly(c: Codec, t: Table, call: Call)
    requires Sound(c, t)
    ensures Answer(c, t, call) == Refused(TransactionRequired) <==> !call.inTransaction
    ensures Answer(c, t, call) == Refused(AdmissionFailed) <==> call.inTransaction && Admit(c, call.input).None?
    ensures Answer(c, t, call) != Refused(IntegrityFailed)
    ensures call.inTransaction && Admit(c, call.input).Some? ==>
      var e := Admit(c, call.input).value;
      var stored := (e.failureId, e.revision) in t;
      && (Answer(c, t, call) == Refused(RevisionConflict) <==>
            stored && Loaded(c, t, e.failureId, e.revision) != Some(e))
      && (Answer(c, t, call) == Refused(IdentityConflict) <==> !stored && !FitsIdentity(t, e))
      && (Answer(c, t, call) == Refused(RevisionSequence) <==>
            !stored && FitsIdentity(t, e) && e.revision != NextRevision(t, e.failureId))
  {
    if call.inTransaction && Admit(c, call.input).Some? {
      var e := Admit(c, call.input).value;
      LastRevision(c, t, e.failureId);
      FitsWhenLastDoes(c, t, e);
      ReplaysExactlyStored(c, t, call);
    }
    hide NextRevision, Revisions, Admit, IdentityOf, OutcomeAmong, FitsIdentity, IdentityFrozen, Contiguous;
  }

  /** A sound table stays sound, and no row of it changes or disappears. */
  lemma StoreKeepsSound(c: Codec, t: Table, call: Call)
    requires Sound(c, t) && c.RoundTrips()
    ensures Sound(c, After(c, t, call))
    ensures forall k :: k in t ==> k in After(c, t, call) && After(c, t, call)[k] == t[k]
  {
    if Answer(c, t, call).Created? {
      var e := Admit(c, call.input).value;
      AdmittedVerifies(c, call.input);
      CreatesExactlyNext(c, t, call);
      NextIsFree(t, e.failureId);
      AddKeepsIdentity(t, RowOf(c, e));
      hide Answer, IdentityFrozen, SameIdentity;
      InsertKeepsContiguous(c, t, RowOf(c, e));
    }
  }

  lemma AddKeepsIdentity(t: Table, row: Row)
    requires IdentityFrozen(t)
    ensures (forall k :: k in t && k.0 == row.failureId ==> SameIdentity(t[k].projection, row.projection)) ==>
      IdentityFrozen(t[KeyOf(row) := row])
  {
  }

  /** A call is answered as a replay exactly when that very envelope is what the table holds. */
  lemma ReplaysExactlyStored(c: Codec, t: Table, call: Call)
    requires Sound(c, t)
    ensures Answer(c, t, call).ExactReplay? <==>
      && call.inTransaction && Admit(c, call.input).Some?
      && var e := Admit(c, call.input).value;
         Loaded(c, t, e.failureId, e.revision) == Some(e)
  {
  }

  /** An answer that is not a refusal names the row that holds the envelope now. */
  lemma AnswerNamesRow(c: Codec, t: Table, call: Call)
    requires Sound(c, t) && c.RoundTrips()
    ensures !Answer(c, t, call).Refused? ==>
      var (a, now) := (Answer(c, t, call), After(c, t, call));
      && Admit(c, call.input).Some? && (a.id, a.revision) in now && now[(a.id, a.revision)].digest == a.digest
      && Loaded(c, now, a.id, a.revision) == Admit(c, call.input)
  {
    ReplaysExactlyStored(c, t, call);
    if Answer(c, t, call).Created? {
      AdmittedVerifies(c, call.input);
    }
    hide NextRevision, Revisions, IdentityOf, OutcomeAmong, IdentityFrozen, Contiguous;
  }

  // ----- Whole runs

  function Run(c: Codec, t: Table, calls: seq<Call>): Table {
    if calls == [] then t else After(c, Run(c, t, calls[..|calls| - 1]), calls[|calls| - 1])
  }

  ghost predicate Extends(t: Table, t': Table) {
    forall k :: k in t ==> k in t' && t'[k] == t[k]
  }

  /** Whatever is stored, the table stays sound and every row it ever held stays as it was. */
  lemma {:induction false} RunKeepsSound(c: Codec, t: Table, calls: seq<Call>)
    requires Sound(c, t) && c.RoundTrips()
    ensures Sound(c, Run(c, t, calls)) && Extends(t, Run(c, t, calls))
  {
    if calls != [] {
      var front := calls[..|calls| - 1];
      RunKeepsSound(c, t, front);
      StoreKeepsSound(c, Run(c, t, front), calls[|calls| - 1]);
    }
  }

  lemma {:induction false} RunSplits(c: Codec, t: Table, calls: seq<Call>, k: nat)
    requires k <= |calls|
    ensures Run(c, t, calls) == Run(c, Run(c, t, calls[..k]), calls[k..])
    decreases |calls| - k
  {
    if k < |calls| {
      RunSplits(c, t, calls, k + 1);
      var rest := calls[k..];
      PrependCall(c, Run(c, t, calls[..k]), calls[k], calls[k + 1..]);
      assert calls[..k + 1][..k] == calls[..k] && calls[k..] == [calls[k]] + calls[k + 1..];
    } else {
      assert calls[..k] == calls;
    }
  }

  lemma {:induction false} PrependCall(c: Codec, t: Table, call: Call, rest: seq<Call>)
    ensures Run(c, t, [call] + rest) == Run(c, After(c, t, call), rest)
    decreases |rest|
  {
    var all := [call] + rest;
    if rest == [] {
      assert all[..0] == [] && all == [call];
    } else {
      PrependCall(c, t, call, rest[..|rest| - 1]);
      assert all[..|all| - 1] == [call] + rest[..|rest| - 1];
    }
  }

  /** From the empty table on: the revisions of every failure are exactly 1..n under one identity. */
  lemma EveryRunIsSound(c: Codec, calls: seq<Call>, id: string, r: int)
    requires c.RoundTrips()
    ensures Sound(c, Run(c, map[], calls))
    ensures (id, r) in Run(c, map[], calls) <==> 1 <= r < NextRevision(Run(c, map[], calls), id)
  {
    RunKeepsSound(c, map[], calls);
    ContiguousExactly(Run(c, map[], calls), id, r);
  }

  /** Storing again what was once stored is a no-op, however much was stored in between. */
  lemma RestoringIsReplay(c: Codec, calls: seq<Call>, k: nat)
    requires c.RoundTrips() && k < |calls| && !Answer(c, Run(c, map[], calls[..k]), calls[k]).Refused?
    ensures Answer(c, Run(c, map[], calls), calls[k]).ExactReplay?
    ensures After(c, Run(c, map[], calls), calls[k]) == Run(c, map[], calls)
  {
    var before, now := Run(c, map[], calls[..k]), Run(c, map[], calls);
    var e := Admit(c, calls[k].input).value;
    RunKeepsSound(c, map[], calls[..k]);
    StoreKeepsSound(c, before, calls[k]);
    RunSplits(c, map[], calls, k + 1);
    assert calls[..k + 1][..k] == calls[..k];
    RunKeepsSound(c, After(c, before, calls[k]), calls[k + 1..]);
    AdmittedVerifies(c, calls[k].input);
    ReplaysExactlyStored(c, before, calls[k]);
    assert Loaded(c, After(c, before, calls[k]), e.failureId, e.revision) == Some(e);
    ReplaysExactlyStored(c, now, calls[k]);
  }

  // ----- Migration

  /** The rows of a table in (failure, revision) order: each once, revisions of a failure ascending. */
  ghost predicate IsListing(t: Table, rows: seq<Row>) {
    && (forall i :: 0 <= i < |rows| ==> KeyOf(rows[i]) in t && t[KeyOf(rows[i])] == rows[i])
    && (forall k :: k in t ==> t[k] in rows)
    && (forall i, j :: 0 <= i < j < |rows| && rows[i].failureId == rows[j].failureId ==>
        rows[i].revision < rows[j].revision)
  }

  datatype Migration = Migrated(table: Table) | MigrationFailed(reason: Reason)

  /** The rows copied so far. */
  ghost predicate CopiedUpTo(t: Table, rows: seq<Row>, n: nat, copy: Table)
    requires n <= |rows|
  {
    && Keyed(copy) && Contiguous(copy)
    && (forall k :: k in copy ==> k in t && copy[k] == t[k])
    && (forall i :: 0 <= i < |rows| ==> (KeyOf(rows[i]) in copy <==> i < n))
  }

  /** The row before the next one has been copied already. */
  lemma PredecessorCopied(t: Table, rows: seq<Row>, n: nat, copy: Table)
    requires Keyed(t) && IsListing(t, rows) && n < |rows| && CopiedUpTo(t, rows, n, copy)
    requires (rows[n].failureId, rows[n].revision - 1) in t
    ensures (rows[n].failureId, rows[n].revision - 1) in copy
  {
    hide Contiguous;
    var key := (rows[n].failureId, rows[n].revision - 1);
    var i :| 0 <= i < |rows| && rows[i] == t[key];
    assert KeyOf(rows[i]) == key;
  }

  /** So the next row of a contiguous table passes both triggers. */
  lemma NextRowFollows(t: Table, rows: seq<Row>, n: nat, copy: Table)
    requires Keyed(t) && IsListing(t, rows) && n < |rows| && CopiedUpTo(t, rows, n, copy) && Contiguous(t)
    ensures KeyOf(rows[n]) !in copy && rows[n].revision == NextRevision(copy, rows[n].failureId)
  {
    var id, r := rows[n].failureId, rows[n].revision;
    assert KeyOf(rows[n]) == (id, r) && (id, r) in t && (id, r).1 >= 1;
    assert (id, r) !in copy;
    ContiguousExactly(copy, id, r);
    if r > 1 {
      PredecessorCopied(t, rows, n, copy);
      ContiguousExactly(copy, id, r - 1);
    } else {
      NextIsFree(copy, id);
    }
  }

  lemma CopyOneMore(t: Table, rows: seq<Row>, n: nat, copy: Table)
    requires Keyed(t) && IsListing(t, rows) && n < |rows| && CopiedUpTo(t, rows, n, copy)
    requires Contiguous(copy[KeyOf(rows[n]) := rows[n]])
    ensures CopiedUpTo(t, rows, n + 1, copy[KeyOf(rows[n]) := rows[n]])
  {
    hide Contiguous;
  }

  lemma CopiedCompletely(t: Table, rows: seq<Row>, copy: Table)
    requires Keyed(t) && IsListing(t, rows) && CopiedUpTo(t, rows, |rows|, copy)
    ensures copy == t
  {
    hide Contiguous;
    forall k | k in t ensures k in copy {
      var i :| 0 <= i < |rows| && rows[i] == t[k];
      assert KeyOf(rows[i]) == k;
    }
  }

  method VerifyAll(c: Codec, t: Table, rows: seq<Row>) returns (ok: bool)
    requires IsListing(t, rows)
    ensures ok <==> AllVerified(c, t)
  {
    for i := 0 to |rows|
      invariant forall j :: 0 <= j < i ==> Verified(c, rows[j]).Some?
    {
      if Verified(c, rows[i]).None? {
        assert t[KeyOf(rows[i])] == rows[i];
        return false;
      }
    }
    ok := true;
  }

  /** INSERT ... SELECT ... ORDER BY failure_id, revision, through the triggers of the new table. */
  method CopyAll(log: Log, t: Table, rows: seq<Row>) returns (ok: bool)
    requires Keyed(t) && IsListing(t, rows) && log.table == map[]
    modifies log
    ensures ok <==> Contiguous(t) && AllAllowed(log.codec, t)
    ensures ok ==> log.table == t
  {
    hide Contiguous, NextRevision, IsListing;
    assert Contiguous(map[]) by { EmptyIsContiguous(); }
    for i := 0 to |rows|
      invariant CopiedUpTo(t, rows, i, log.table)
      invariant forall j :: 0 <= j < i ==> log.codec.Allows(rows[j])
    {
      ghost var copy := log.table;
      if Contiguous(t) {
        NextRowFollows(t, rows, i, copy);
      }
      RowListed(t, rows, i);
      ok := log.Execute(rows[i]);
      if !ok {
        return;
      }
      InsertKeepsContiguous(log.codec, copy, rows[i]);
      CopyOneMore(t, rows, i, copy);
    }
    CopiedCompletely(t, rows, log.table);
    forall k | k in t ensures log.codec.Allows(t[k]) {
      var j := PositionOf(t, rows, k);
    }
    ok := true;
  }

  lemma EmptyIsContiguous()
    ensures Contiguous(map[])
  {
  }

  lemma RowListed(t: Table, rows: seq<Row>, i: nat)
    requires IsListing(t, rows) && i < |rows|
    ensures KeyOf(rows[i]) in t && t[KeyOf(rows[i])] == rows[i]
  {
  }

  lemma PositionOf(t: Table, rows: seq<Row>, k: Key) returns (j: nat)
    requires IsListing(t, rows) && k in t
    ensures j < |rows| && rows[j] == t[k]
  {
    j :| 0 <= j < |rows| && rows[j] == t[k];
  }

  /** The migration succeeds exactly on a verified, gapless table within the new constraints, and
      then rebuilds exactly the same table; every revision loads as before. */
  method Migrate(c: Codec, t: Table, rows: seq<Row>, columnsMatch: bool) returns (result: Migration)
    requires Keyed(t) && IsListing(t, rows)
    ensures result.Migrated? <==>
      columnsMatch && AllVerified(c, t) && Contiguous(t) && AllAllowed(c, t)
    ensures result.Migrated? ==> result.table == t
    ensures result == MigrationFailed(IntegrityFailed) <==> columnsMatch && !AllVerified(c, t)
  {
    if !columnsMatch {
      return MigrationFailed(SchemaFailed);
    }
    var verified := VerifyAll(c, t, rows);
    if !verified {
      return MigrationFailed(IntegrityFailed);
    }
    var log := new Log(c);
    var copied := CopyAll(log, t, rows);
    result := if copied then Migrated(log.table) else MigrationFailed(SchemaFailed);
  }

  /** The newer version differs in its outcomes alone: its constraint and its reader refuse every other. */
  ghost predicate ChangesOutcomes(v13: Codec, v14: Codec) {
    && v14.print_ == v13.print_ && v14.hash == v13.hash && v14.bounded == v13.bounded
    && forall raw :: v14.parse(raw) == OnlyOutcomes(v13.parse(raw), v14.outcomes)
  }

  function OnlyOutcomes(e: Option<Envelope>, outcomes: set<string>): Option<Envelope> {
    if e.Some? && OutcomeAmong(e.value.projection, outcomes) then e else None
  }

  /** Of the tables that the older version can build exactly those migrate in which every outcome is
      one of the newer version, and then each revision still reads as the same envelope. */
  lemma MigratesExactly(v13: Codec, v14: Codec, calls: seq<Call>)
    requires v13.RoundTrips() && ChangesOutcomes(v13, v14)
    ensures var t := Run(v13, map[], calls);
      && Keyed(t) && Contiguous(t)
      && (AllVerified(v14, t) <==> forall k :: k in t ==> OutcomeAmong(t[k].projection, v14.outcomes))
      && (AllVerified(v14, t) ==>
            AllAllowed(v14, t) && forall k :: k in t ==> Verified(v14, t[k]) == Verified(v13, t[k]))
  {
    var t := Run(v13, map[], calls);
    RunKeepsSound(v13, map[], calls);
    RunKeepsAllowed(v13, calls);
    hide Run;
    forall k | k in t
      ensures Verified(v14, t[k]).Some? <==> OutcomeAmong(t[k].projection, v14.outcomes)
      ensures Verified(v14, t[k]).Some? ==> Verified(v14, t[k]) == Verified(v13, t[k])
    {
      assert Verified(v13, t[k]).Some?;
    }
  }

  /** So no table is refused when the newer version keeps every outcome of the older one. */
  lemma EveryRunMigrates(v13: Codec, v14: Codec, calls: seq<Call>)
    requires v13.RoundTrips() && ChangesOutcomes(v13, v14) && v13.outcomes <= v14.outcomes
    ensures var t := Run(v13, map[], calls);
      Keyed(t) && Contiguous(t) && AllVerified(v14, t) && AllAllowed(v14, t)
  {
    MigratesExactly(v13, v14, calls);
    RunKeepsAllowed(v13, calls);
  }

  /** The retired outcome "partial" is not taken for another: a table that holds it is refused. */
  lemma RetiredOutcomeIsRefused(v13: Codec, v14: Codec, calls: seq<Call>, k: Key)
    requires v13.RoundTrips() && ChangesOutcomes(v13, v14) && v14.outcomes == CURRENT_OUTCOMES
    requires k in Run(v13, map[], calls) && Run(v13, map[], calls)[k].projection.currentOutcome == Some("partial")
    ensures !AllVerified(v14, Run(v13, map[], calls))
  {
    MigratesExactly(v13, v14, calls);
  }

  lemma {:induction false} RunKeepsAllowed(c: Codec, calls: seq<Call>)
    ensures AllAllowed(c, Run(c, map[], calls))
  {
    if calls != [] {
      RunKeepsAllowed(c, calls[..|calls| - 1]);
    }
  }
}
