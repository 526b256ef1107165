/**
 Judging a list of candidates: cached labels are looked up, the rest is grouped by snapshot and one
 concurrent worker per snapshot asks the model, in whatever order the limiter and the replies allow.
 */
module Judging {
  import opened Basics

  datatype Verdict = Verdict(score: int, rationale: string)

  datatype Candidate = Candidate(id: string, snapshotSha: string, raw: string)

  datatype LabelKey = LabelKey(task: string, snapshot: string, contract: string)

  /** What the caller gets for one candidate. */
  datatype Judged = Judged(verdict: Verdict, cached: bool, latency: int)

  /** A label to be stored later. */
  datatype LabelWrite = LabelWrite(key: LabelKey, verdict: Verdict, latency: int)

  /** How the model answers one call. */
  datatype Reply = Reply(verdict: Verdict, latency: int) | ModelError

  /** One call of the model: the snapshot it is about and the candidate whose text is shown. */
  datatype Call = Call(snapshot: string, leader: string)

  /** What the limiter sees of the calls. */
  datatype Event = Started(call: Call) | Finished(snapshot: string)

  type Results = map<string, Judged>

  /** The stored labels and the two JSON directions. */
  datatype Codec = Codec(encode: Verdict -> string, decode: string -> Option<Verdict>)

  ghost predicate RoundTrips(codec: Codec) {
    forall v :: codec.decode(codec.encode(v)) == Some(v)
  }

  /** The request of one call: everything a label key holds besides the snapshot. */
  datatype Request = Request(task: string, contract: string, sha: string -> string, stored: bool)

  type Labels = map<LabelKey, string>

  /** What one call goes by: its request, the stored labels, and how labels are written. */
  datatype Book = Book(r: Request, labels: Labels, codec: Codec)

  /** What a call yields: a result per candidate id, the labels to be stored, and the model calls made. */
  datatype Tally = Tally(results: Results, writes: seq<LabelWrite>, calls: seq<Call>)

  function SnapshotOf(c: Candidate, sha: string -> string): string {
    if c.snapshotSha != "" then c.snapshotSha else sha(c.raw)
  }

  function KeyOf(c: Candidate, r: Request): LabelKey {
    LabelKey(r.task, SnapshotOf(c, r.sha), r.contract)
  }

  ghost predicate DistinctIds(candidates: seq<Candidate>) {
    forall i, j :: 0 <= i < j < |candidates| ==> candidates[i].id != candidates[j].id
  }

  /** A label is found for the candidate. */
  predicate Hit(c: Candidate, b: Book) { b.r.stored && KeyOf(c, b.r) in b.labels }

  /** The candidates of a snapshot, in their order. */
  function WithSnapshot(candidates: seq<Candidate>, s: string, sha: string -> string): (g: seq<Candidate>)
    ensures forall c :: c in g <==> c in candidates && SnapshotOf(c, sha) == s
  {
    if candidates == [] then []
    else
      var front, last := candidates[..|candidates| - 1], candidates[|candidates| - 1];
      assert candidates == front + [last];
      WithSnapshot(front, s, sha) + if SnapshotOf(last, sha) == s then [last] else []
  }

  // ----- What a complete judgement is

  /** A cached candidate carries its label. */
  ghost predicate CachedOne(c: Candidate, b: Book, results: Results) {
    && Hit(c, b) && b.codec.decode(b.labels[KeyOf(c, b.r)]).Some? && c.id in results
    && results[c.id] == Judged(b.codec.decode(b.labels[KeyOf(c, b.r)]).value, true, 0)
  }

  ghost predicate CachedJudged(candidates: seq<Candidate>, b: Book, results: Results) {
    forall c :: c in candidates && Hit(c, b) ==> CachedOne(c, b, results)
  }

  /** Every other candidate carries the verdict of the one write for its snapshot. */
  ghost predicate FreshJudged(candidates: seq<Candidate>, b: Book, results: Results, writes: seq<LabelWrite>) {
    forall c :: c in candidates && !Hit(c, b) ==> FreshOne(c, b, results, writes)
  }

  ghost predicate FreshOne(c: Candidate, b: Book, results: Results, writes: seq<LabelWrite>) {
    exists k :: 0 <= k < |writes| && writes[k].key == KeyOf(c, b.r) && c.id in results
      && results[c.id] == Judged(writes[k].verdict, false, writes[k].latency)
  }

  /** One write and one call per distinct snapshot without a label; the call shows the first candidate. */
  ghost predicate OneCallEach(candidates: seq<Candidate>, b: Book, writes: seq<LabelWrite>, calls: seq<Call>) {
    && |calls| == |writes|
    && (forall i, j :: 0 <= i < j < |writes| ==> writes[i].key != writes[j].key)
    && (forall i, j :: 0 <= i < j < |calls| ==> calls[i].snapshot != calls[j].snapshot)
    && (forall k :: 0 <= k < |writes| ==> PendingWrite(candidates, b, writes[k]))
    && (forall k :: 0 <= k < |calls| ==> PendingCall(candidates, b, calls[k]))
  }

  ghost predicate PendingWrite(candidates: seq<Candidate>, b: Book, w: LabelWrite) {
    w.key == LabelKey(b.r.task, w.key.snapshot, b.r.contract) && PendingSnapshot(candidates, b, w.key.snapshot)
  }

  ghost predicate PendingCall(candidates: seq<Candidate>, b: Book, call: Call) {
    PendingSnapshot(candidates, b, call.snapshot)
      && call.leader == WithSnapshot(candidates, call.snapshot, b.r.sha)[0].id
  }

  /** The call about a snapshot: it shows the first candidate that has it. */
  ghost function CallFor(candidates: seq<Candidate>, b: Book, s: string): Call {
    var group := WithSnapshot(candidates, s, b.r.sha);
    Call(s, if group == [] then "" else group[0].id)
  }

  /** Every write holds what the model replied to the call about its snapshot; latencies count at least one. */
  ghost predicate Replied(candidates: seq<Candidate>, b: Book, writes: seq<LabelWrite>, replies: Call -> Reply) {
    forall k :: 0 <= k < |writes| ==> RepliedOne(candidates, b, writes[k], replies)
  }

  ghost predicate RepliedOne(candidates: seq<Candidate>, b: Book, w: LabelWrite, replies: Call -> Reply) {
    var reply := replies(CallFor(candidates, b, w.key.snapshot));
    && reply.Reply? && w.verdict == reply.verdict
    && w.latency >= 1 && w.latency >= reply.latency && (w.latency == 1 || w.latency == reply.latency)
  }

  /** So every candidate without a label gets the model's verdict on its own snapshot, whatever the order
      in which the workers finish. */
  ghost predicate JudgedByModel(candidates: seq<Candidate>, b: Book, results: Results, replies: Call -> Reply) {
    forall c :: c in candidates && !Hit(c, b) ==>
      var reply := replies(CallFor(candidates, b, SnapshotOf(c, b.r.sha)));
      && reply.Reply? && c.id in results
      && results[c.id] == Judged(reply.verdict, false, if reply.latency < 1 then 1 else reply.latency)
  }

  ghost predicate PendingSnapshot(candidates: seq<Candidate>, b: Book, s: string) {
    WithSnapshot(candidates, s, b.r.sha) != [] && !(b.r.stored && LabelKey(b.r.task, s, b.r.contract) in b.labels)
  }

  ghost predicate Complete(candidates: seq<Candidate>, b: Book, t: Tally) {
    && t.results.Keys == (set c | c in candidates :: c.id)
    && CachedJudged(candidates, b, t.results)
    && FreshJudged(candidates, b, t.results, t.writes)
    && OneCallEach(candidates, b, t.writes, t.calls)
  }

  /** The snapshots the model must be asked about. */
  ghost function Pending(candidates: seq<Candidate>, b: Book): set<string> {
    set c | c in candidates && !Hit(c, b) :: SnapshotOf(c, b.r.sha)
  }

  /** Every label that is found can be read. */
  ghost predicate AllDecode(candidates: seq<Candidate>, b: Book) {
    forall c :: c in candidates && Hit(c, b) ==> b.codec.decode(b.labels[KeyOf(c, b.r)]).Some?
  }

  /** Candidates with the same snapshot get the same result. */
  lemma EqualSnapshotsEqualResults(candidates: seq<Candidate>, b: Book, t: Tally, c: Candidate, d: Candidate)
    requires Complete(candidates, b, t) && c in candidates && d in candidates
    requires SnapshotOf(c, b.r.sha) == SnapshotOf(d, b.r.sha)
    ensures c.id in t.results && d.id in t.results && t.results[c.id] == t.results[d.id]
  {
    if Hit(c, b) {
      assert CachedOne(c, b, t.results) && CachedOne(d, b, t.results);
    } else {
      assert FreshOne(c, b, t.results, t.writes) && FreshOne(d, b, t.results, t.writes);
      var k := WriteOf(c, b, t.results, t.writes);
      var l := WriteOf(d, b, t.results, t.writes);
      assert k == l;
    }
  }

  /** The snapshot is the recorded one, or that of the text when none is recorded: candidates with the
      same record, and candidates without one that have the same text, get the same result. */
  lemma SameRecordOrText(candidates: seq<Candidate>, b: Book, t: Tally, c: Candidate, d: Candidate)
    requires Complete(candidates, b, t) && c in candidates && d in candidates && c.snapshotSha == d.snapshotSha
    requires c.snapshotSha == "" ==> c.raw == d.raw
    ensures c.id in t.results && d.id in t.results && t.results[c.id] == t.results[d.id]
    ensures SnapshotOf(c, b.r.sha) == if c.snapshotSha == "" then b.r.sha(c.raw) else c.snapshotSha
  {
    EqualSnapshotsEqualResults(candidates, b, t, c, d);
  }

  lemma WriteOf(c: Candidate, b: Book, results: Results, writes: seq<LabelWrite>) returns (k: nat)
    requires FreshOne(c, b, results, writes)
    ensures k < |writes| && writes[k].key == KeyOf(c, b.r) && c.id in results
    ensures results[c.id] == Judged(writes[k].verdict, false, writes[k].latency)
  {
    k :| k < |writes| && writes[k].key == KeyOf(c, b.r) && c.id in results
      && results[c.id] == Judged(writes[k].verdict, false, writes[k].latency);
  }

  // ----- The limiter

  function CallsIn(trace: seq<Event>): seq<Call> {
    if trace == [] then []
    else
      var last := trace[|trace| - 1];
      CallsIn(trace[..|trace| - 1]) + if last.Started? then [last.call] else []
  }

  function EndsIn(trace: seq<Event>): seq<string> {
    if trace == [] then []
    else
      var last := trace[|trace| - 1];
      EndsIn(trace[..|trace| - 1]) + if last.Finished? then [last.snapshot] else []
  }

  function SnapshotsOf(writes: seq<LabelWrite>): (r: seq<string>)
    ensures |r| == |writes| && forall k :: 0 <= k < |r| ==> r[k] == writes[k].key.snapshot
  {
    seq(|writes|, k requires 0 <= k < |writes| => writes[k].key.snapshot)
  }

  /** At no time are more calls open than the limit, and no call ends that has not started. */
  ghost predicate WithinLimit(trace: seq<Event>, limit: nat) {
    forall n :: 0 <= n <= |trace| ==> OpenAtMost(trace[..n], limit)
  }

  ghost predicate OpenAtMost(trace: seq<Event>, limit: nat) {
    && |CallsIn(trace)| <= |EndsIn(trace)| + limit
    && forall s :: s in EndsIn(trace) ==> exists c :: c in CallsIn(trace) && c.snapshot == s
  }

  lemma NoEvents(limit: nat)
    ensures CallsIn([]) == [] && EndsIn([]) == [] && SnapshotsOf([]) == [] && WithinLimit([], limit)
  {
  }

  lemma OneMoreEvent(trace: seq<Event>, e: Event, limit: nat)
    requires WithinLimit(trace, limit) && OpenAtMost(trace + [e], limit)
    ensures WithinLimit(trace + [e], limit)
  {
    hide OpenAtMost;
    var more := trace + [e];
    forall n | 0 <= n <= |more| ensures OpenAtMost(more[..n], limit) {
      assert n <= |trace| ==> more[..n] == trace[..n];
      assert n == |more| ==> more[..n] == more;
    }
  }

  lemma EventAdds(trace: seq<Event>, e: Event)
    ensures CallsIn(trace + [e]) == CallsIn(trace) + if e.Started? then [e.call] else []
    ensures EndsIn(trace + [e]) == EndsIn(trace) + if e.Finished? then [e.snapshot] else []
  {
    assert (trace + [e])[..|trace|] == trace;
  }

  lemma CallStarts(trace: seq<Event>, t: Tally, p: Phase, limit: nat, call: Call)
    requires CallsIn(trace) == t.calls && EndsIn(trace) == SnapshotsOf(t.writes) && WithinLimit(trace, limit)
    ensures CallsIn(trace + [Started(call)]) == t.calls + [call]
    ensures EndsIn(trace + [Started(call)]) == SnapshotsOf(t.writes)
    ensures |t.calls| == |p.running| + |t.writes| && |p.running| < limit ==> WithinLimit(trace + [Started(call)], limit)
  {
    EventAdds(trace, Started(call));
    assert trace[..|trace|] == trace && OpenAtMost(trace, limit);
    hide WithinLimit, CallsIn, EndsIn;
    if |t.calls| == |p.running| + |t.writes| && |p.running| < limit {
      forall s | s in EndsIn(trace) ensures exists c :: c in CallsIn(trace) + [call] && c.snapshot == s {
        var c :| c in CallsIn(trace) && c.snapshot == s;
        assert c in CallsIn(trace) + [call];
      }
      OneMoreEvent(trace, Started(call), limit);
    }
  }

  lemma CallFinishes(trace: seq<Event>, t: Tally, limit: nat, w: LabelWrite)
    requires CallsIn(trace) == t.calls && EndsIn(trace) == SnapshotsOf(t.writes) && WithinLimit(trace, limit)
    requires exists c :: c in t.calls && c.snapshot == w.key.snapshot
    ensures CallsIn(trace + [Finished(w.key.snapshot)]) == t.calls
    ensures EndsIn(trace + [Finished(w.key.snapshot)]) == SnapshotsOf(t.writes + [w])
    ensures WithinLimit(trace + [Finished(w.key.snapshot)], limit)
  {
    EventAdds(trace, Finished(w.key.snapshot));
    assert trace[..|trace|] == trace && OpenAtMost(trace, limit);
    assert SnapshotsOf(t.writes + [w]) == SnapshotsOf(t.writes) + [w.key.snapshot];
    hide WithinLimit, CallsIn, EndsIn;
    OneMoreEvent(trace, Finished(w.key.snapshot), limit);
  }

  // ----- The judge

  class Judge {
    var labels: Labels
    var calls: seq<Call>
    const codec: Codec
    const limit: nat
    const replies: Call -> Reply
    /** Whether storing the k-th label of a flush fails. */
    const broken: nat -> bool

    constructor (labels: Labels, codec: Codec, limit: nat, replies: Call -> Reply, broken: nat -> bool)
      ensures this.labels == labels && this.codec == codec && this.limit == limit && this.replies == replies
      ensures this.broken == broken && calls == []
    {
      this.labels, this.codec, this.limit, this.replies, this.broken := labels, codec, limit, replies, broken;
      this.calls := [];
    }

    function BookFor(r: Request): Book
      reads this
    {
      Book(r, labels, codec)
    }

    /** Looks every candidate up; the others are grouped by snapshot in order of appearance. */
    method Sort(candidates: seq<Candidate>, r: Request)
      returns (ok: bool, results: Results, groups: map<string, seq<Candidate>>)
      requires DistinctIds(candidates)
      ensures ok <==> AllDecode(candidates, BookFor(r))
      ensures ok ==> LookedUp(candidates, BookFor(r), results) && Grouped(candidates, BookFor(r), groups)
    {
      var b := BookFor(r);
      results, groups := map[], map[];
      var i := 0;
      while i < |candidates|
        invariant 0 <= i <= |candidates|
        invariant LookedUp(candidates[..i], b, results) && Grouped(candidates[..i], b, groups)
      {
        hide LookedUp, Grouped;
        var c := candidates[i];
        assert candidates[..i + 1] == candidates[..i] + [c];
        NewId(candidates, i);
        OneMoreCandidate(candidates[..i], c, b, results, groups);
        if Hit(c, b) {
          var verdict := codec.decode(labels[KeyOf(c, r)]);
          if verdict.None? {
            return false, results, groups;
          }
          results := results[c.id := Judged(verdict.value, true, 0)];
        } else {
          var s := SnapshotOf(c, r.sha);
          groups := groups[s := (if s in groups then groups[s] else []) + [c]];
        }
        i := i + 1;
      }
      assert candidates[..i] == candidates;
      LookedUpDecodes(candidates, b, results);
      ok := true;
    }

    /** Hands one verdict to every candidate of a group. */
    method Spread(results: Results, group: seq<Candidate>, judged: Judged) returns (r: Results)
      ensures SpreadOver(results, group, judged, r)
    {
      r := results;
      var i := 0;
      while i < |group|
        invariant 0 <= i <= |group| && SpreadOver(results, group[..i], judged, r)
      {
        assert group[..i + 1] == group[..i] + [group[i]];
        r := r[group[i].id := judged];
        i := i + 1;
      }
      assert group[..i] == group;
    }

    /** The labels can be read, and each of the replies that are waited for is a verdict. */
    ghost predicate Answered(candidates: seq<Candidate>, r: Request)
      reads this
    {
      && AllDecode(candidates, BookFor(r))
      && forall s :: s in Pending(candidates, BookFor(r)) ==> replies(CallFor(candidates, BookFor(r), s)).Reply?
    }

    /** Judges all candidates. The workers start and finish in any order the limiter allows, and the
        first model error ends the whole call. No label is stored here. */
    method JudgeMany(candidates: seq<Candidate>, r: Request) returns (outcome: Option<Tally>, ghost trace: seq<Event>)
      requires DistinctIds(candidates) && limit >= 1
      modifies this`calls
      ensures calls == old(calls) + CallsIn(trace) && WithinLimit(trace, limit)
      ensures outcome.Some? ==> EndsIn(trace) == SnapshotsOf(outcome.value.writes)
      ensures outcome.Some? <==> old(Answered(candidates, r))
      ensures outcome.Some? ==>
        Complete(candidates, BookFor(r), outcome.value) && calls == old(calls) + outcome.value.calls
      ensures outcome.Some? ==> Replied(candidates, BookFor(r), outcome.value.writes, replies)
      ensures outcome.Some? ==> JudgedByModel(candidates, BookFor(r), outcome.value.results, replies)
    {
      hide LookedUp, Grouped, SpreadOver, Underway, Hit, KeyOf, AllDecode, Pending, CallFor, JudgedByModel;
      hide CallsIn, EndsIn, WithinLimit, SnapshotsOf;
      trace := [];
      NoEvents(limit);
      var b := BookFor(r);
      var ok, results, groups := Sort(candidates, r);
      if !ok {
        return None, trace;
      }
      var p, t := Phase(groups, groups.Keys, {}), Tally(results, [], []);
      NothingUnderway(candidates, b, results, groups);
      while p.waiting != {} || p.running != {}
        invariant calls == old(calls) + t.calls && |p.running| <= limit && p.groups == groups
        invariant CallsIn(trace) == t.calls && EndsIn(trace) == SnapshotsOf(t.writes) && WithinLimit(trace, limit)
        invariant Underway(candidates, b, p, t) && Replied(candidates, b, t.writes, replies)
        decreases 2 * |p.waiting| + |p.running|
      {
        var start := p.waiting != {} && |p.running| < limit;
        if start && p.running != {} {
          start := *;
        }
        if start {
          var s :| s in p.waiting;
          StartStep(candidates, b, p, t, s);
          CountsOf(candidates, b, p, t);
          CallStarts(trace, t, p, limit, Call(s, groups[s][0].id));
          trace := trace + [Started(Call(s, groups[s][0].id))];
          calls := calls + [Call(s, groups[s][0].id)];
          t := t.(calls := t.calls + [Call(s, groups[s][0].id)]);
          p := p.(waiting := p.waiting - {s}, running := p.running + {s});
        } else {
          var s :| s in p.running;
          RunningIsKnown(candidates, b, p, t, s);
          var reply := replies(Call(s, groups[s][0].id));
          if reply.ModelError? {
            return None, trace;
          }
          var latency := if reply.latency < 1 then 1 else reply.latency;
          var w := LabelWrite(LabelKey(r.task, s, r.contract), reply.verdict, latency);
          var more := Spread(t.results, groups[s], Judged(reply.verdict, false, latency));
          FinishStep(candidates, b, p, t, w, more);
          WasCalled(candidates, b, p, t, s);
          CallFinishes(trace, t, limit, w);
          trace := trace + [Finished(s)];
          p := p.(running := p.running - {s});
          t := Tally(more, t.writes + [w], t.calls);
        }
      }
      AllJudged(candidates, b, p, t);
      AllReplied(candidates, b, t, replies);
      outcome := Some(t);
    }

    /** Stores the labels of a finished judgement one by one, up to the first that fails. */
    method Flush(writes: seq<LabelWrite>) returns (done: nat)
      modifies this`labels
      ensures done <= |writes| && (forall k :: 0 <= k < done ==> !broken(k)) && (done < |writes| ==> broken(done))
      ensures labels == Stored(old(labels), writes[..done], codec)
    {
      done := 0;
      while done < |writes| && !broken(done)
        invariant done <= |writes| && labels == Stored(old(labels), writes[..done], codec)
        invariant forall k :: 0 <= k < done ==> !broken(k)
      {
        assert writes[..done + 1][..done] == writes[..done];
        labels := labels[writes[done].key := codec.encode(writes[done].verdict)];
        done := done + 1;
      }
    }

    /** The labels of all pending snapshots can be stored. */
    ghost predicate Storable(candidates: seq<Candidate>, r: Request)
      reads this
    {
      r.stored ==> forall k :: 0 <= k < |Pending(candidates, BookFor(r))| ==> !broken(k)
    }

    /** Judging as an evaluation runs it: labels are stored only once every candidate is judged. */
    method Evaluate(candidates: seq<Candidate>, r: Request)
      returns (outcome: Option<Tally>, ghost judged: Option<Tally>, ghost done: nat, ghost trace: seq<Event>)
      requires DistinctIds(candidates) && limit >= 1
      modifies this
      ensures calls == old(calls) + CallsIn(trace) && WithinLimit(trace, limit)
      ensures judged.Some? <==> old(Answered(candidates, r))
      ensures judged.Some? ==> Complete(candidates, old(BookFor(r)), judged.value)
      ensures judged.Some? ==> Replied(candidates, old(BookFor(r)), judged.value.writes, replies)
      ensures judged.Some? ==> JudgedByModel(candidates, old(BookFor(r)), judged.value.results, replies)
      ensures judged.Some? ==> calls == old(calls) + judged.value.calls && done <= |judged.value.writes|
      ensures labels == if judged.Some? then Stored(old(labels), judged.value.writes[..done], codec) else old(labels)
      ensures outcome.Some? <==> old(Answered(candidates, r) && Storable(candidates, r))
      ensures outcome.Some? ==> outcome == judged && done == if r.stored then |judged.value.writes| else 0
    {
      hide Complete, AllDecode, Pending, Stored, Replied, JudgedByModel, CallFor;
      outcome, trace := JudgeMany(candidates, r);
      judged, done := outcome, 0;
      if outcome.Some? && r.stored {
        OneWriteEach(candidates, BookFor(r), outcome.value);
        var stored := Flush(outcome.value.writes);
        done := stored;
        if stored < |outcome.value.writes| {
          outcome := None;
        }
      }
      EmptyFlush(old(labels), codec);
    }
  }

  /** The candidates of an evaluation: one per id, in order of first appearance, the last one given. */
  method Unique(candidates: seq<Candidate>) returns (u: seq<Candidate>)
    ensures DistinctIds(u)
    ensures forall c :: c in u <==> LastWithId(candidates, c)
  {
    u := [];
    var i := 0;
    while i < |candidates|
      invariant 0 <= i <= |candidates| && DistinctIds(u)
      invariant forall c :: c in u <==> LastWithId(candidates[..i], c)
    {
      var c, k := candidates[i], 0;
      assert candidates[..i + 1] == candidates[..i] + [c];
      LastStep(candidates[..i], c);
      while k < |u| && u[k].id != c.id
        invariant 0 <= k <= |u| && forall j :: 0 <= j < k ==> u[j].id != c.id
      {
        k := k + 1;
      }
      ghost var before := u;
      u := if k < |u| then u[k := c] else u + [c];
      Replaced(before, u, k, c);
      i := i + 1;
    }
    assert candidates[..i] == candidates;
  }

  /** The last candidate with its id. */
  ghost predicate LastWithId(candidates: seq<Candidate>, c: Candidate) {
    exists i :: 0 <= i < |candidates| && candidates[i] == c
      && forall j :: i < j < |candidates| ==> candidates[j].id != c.id
  }

  lemma LastStep(before: seq<Candidate>, c: Candidate)
    ensures forall d :: LastWithId(before + [c], d) <==> d == c || (LastWithId(before, d) && d.id != c.id)
  {
    var now := before + [c];
    forall d ensures LastWithId(now, d) <==> d == c || (LastWithId(before, d) && d.id != c.id) {
      if LastWithId(now, d) {
        var i :| 0 <= i < |now| && now[i] == d && forall j :: i < j < |now| ==> now[j].id != d.id;
        if i < |before| {
          assert before[i] == d && now[|before|] == c;
          assert forall j :: i < j < |before| ==> before[j] == now[j];
        }
      }
      if LastWithId(before, d) && d.id != c.id {
        var i :| 0 <= i < |before| && before[i] == d && forall j :: i < j < |before| ==> before[j].id != d.id;
        assert now[i] == d;
      }
      assert now[|before|] == c;
    }
  }

  lemma Replaced(before: seq<Candidate>, after: seq<Candidate>, k: nat, c: Candidate)
    requires DistinctIds(before) && k <= |before| && forall j :: 0 <= j < k ==> before[j].id != c.id
    requires k < |before| ==> before[k].id == c.id
    requires after == if k < |before| then before[k := c] else before + [c]
    ensures DistinctIds(after) && forall d :: d in after <==> d == c || (d in before && d.id != c.id)
  {
    forall d ensures d in after <==> d == c || (d in before && d.id != c.id) {
      if d in after {
        var j :| 0 <= j < |after| && after[j] == d;
        if j != k {
          assert before[j] == d;
        }
      }
      if d in before && d.id != c.id {
        var j :| 0 <= j < |before| && before[j] == d;
        assert after[j] == d;
      }
      assert after[k] == c;
    }
  }

  function Stored(labels: map<LabelKey, string>, writes: seq<LabelWrite>, codec: Codec): map<LabelKey, string> {
    if writes == [] then labels
    else
      var w := writes[|writes| - 1];
      Stored(labels, writes[..|writes| - 1], codec)[w.key := codec.encode(w.verdict)]
  }

  /** Storing a list of labels with different keys stores each of them and nothing else. */
  lemma {:induction false} StoredHas(labels: map<LabelKey, string>, writes: seq<LabelWrite>, codec: Codec,
                                     key: LabelKey)
    requires forall i, j :: 0 <= i < j < |writes| ==> writes[i].key != writes[j].key
    ensures key in Stored(labels, writes, codec) <==>
      key in labels || exists k :: 0 <= k < |writes| && writes[k].key == key
    ensures forall k :: 0 <= k < |writes| && writes[k].key == key ==>
      Stored(labels, writes, codec)[key] == codec.encode(writes[k].verdict)
    ensures (forall k :: 0 <= k < |writes| ==> writes[k].key != key) && key in labels ==>
      Stored(labels, writes, codec)[key] == labels[key]
  {
    if writes != [] {
      var front, w := writes[..|writes| - 1], writes[|writes| - 1];
      StoredHas(labels, front, codec, key);
      assert forall k :: 0 <= k < |front| ==> front[k] == writes[k];
    }
  }

  /** The book after the labels of a call are stored. */
  function NextBook(b: Book, writes: seq<LabelWrite>): Book {
    b.(labels := Stored(b.labels, writes, b.codec))
  }

  /** Once the labels are stored, judging the same candidates again asks the model nothing, stores
      nothing, and gives every candidate the verdict it had. */
  lemma SecondCallHits(candidates: seq<Candidate>, b: Book, t: Tally, t': Tally)
    requires b.r.stored && RoundTrips(b.codec) && Complete(candidates, b, t)
    requires Complete(candidates, NextBook(b, t.writes), t')
    ensures t'.calls == [] && t'.writes == []
    ensures forall c :: c in candidates ==>
      c.id in t.results && c.id in t'.results && t'.results[c.id] == Judged(t.results[c.id].verdict, true, 0)
  {
    hide CachedJudged, FreshJudged, PendingSnapshot, Stored;
    var next := NextBook(b, t.writes);
    forall c | c in candidates
      ensures c.id in t.results && c.id in t'.results && t'.results[c.id] == Judged(t.results[c.id].verdict, true, 0)
    {
      HitNextTime(candidates, b, t, c);
      CachedResult(candidates, next, t'.results, c);
    }
    forall s ensures !PendingSnapshot(candidates, next, s) {
      NothingPending(candidates, b, t, s);
    }
    CallsArePending(candidates, next, t'.writes, t'.calls);
  }

  /** A flush that stops after `n` labels leaves just the snapshots of the others to be asked about, and
      every label that was stored can be read. */
  lemma ResumesExactly(candidates: seq<Candidate>, b: Book, t: Tally, n: nat)
    requires b.r.stored && RoundTrips(b.codec) && Complete(candidates, b, t) && n <= |t.writes|
    ensures AllDecode(candidates, NextBook(b, t.writes[..n]))
    ensures Pending(candidates, NextBook(b, t.writes[..n])) == Done(t.writes[n..])
  {
    hide Complete, Stored, SnapshotOf, Done;
    var next := NextBook(b, t.writes[..n]);
    forall c | c in candidates
      ensures Hit(c, next) ==> b.codec.decode(next.labels[KeyOf(c, b.r)]).Some?
      ensures Hit(c, next) <==> SnapshotOf(c, b.r.sha) !in Done(t.writes[n..])
    {
      HitAfter(candidates, b, t, n, c);
    }
    forall s | s in Done(t.writes[n..]) ensures s in Pending(candidates, next) {
      DoneIsPending(candidates, b, t, n, s);
    }
  }

  lemma HitAfter(candidates: seq<Candidate>, b: Book, t: Tally, n: nat, c: Candidate)
    requires b.r.stored && RoundTrips(b.codec) && Complete(candidates, b, t) && n <= |t.writes| && c in candidates
    ensures var next := NextBook(b, t.writes[..n]);
      && (Hit(c, next) ==> b.codec.decode(next.labels[KeyOf(c, b.r)]).Some?)
      && (Hit(c, next) <==> SnapshotOf(c, b.r.sha) !in Done(t.writes[n..]))
  {
    hide Stored, SnapshotOf, WithSnapshot;
    var front := t.writes[..n];
    StoredHas(b.labels, front, b.codec, KeyOf(c, b.r));
    if Hit(c, b) {
      assert CachedOne(c, b, t.results);
      forall k | 0 <= k < |t.writes| ensures t.writes[k].key != KeyOf(c, b.r) {
        assert PendingWrite(candidates, b, t.writes[k]);
      }
    } else {
      assert FreshOne(c, b, t.results, t.writes);
    }
  }

  lemma DoneIsPending(candidates: seq<Candidate>, b: Book, t: Tally, n: nat, s: string)
    requires b.r.stored && RoundTrips(b.codec) && Complete(candidates, b, t) && n <= |t.writes|
    requires s in Done(t.writes[n..])
    ensures s in Pending(candidates, NextBook(b, t.writes[..n]))
  {
    var k :| 0 <= k < |t.writes[n..]| && t.writes[n..][k].key.snapshot == s;
    assert PendingWrite(candidates, b, t.writes[n + k]);
    var c := WithSnapshot(candidates, s, b.r.sha)[0];
    assert c in WithSnapshot(candidates, s, b.r.sha);
    HitAfter(candidates, b, t, n, c);
  }

  /** In particular nothing keeps a second call from completing: no reply of the model is waited for. */
  lemma SecondCallCompletes(candidates: seq<Candidate>, b: Book, t: Tally)
    requires b.r.stored && RoundTrips(b.codec) && Complete(candidates, b, t)
    ensures AllDecode(candidates, NextBook(b, t.writes)) && Pending(candidates, NextBook(b, t.writes)) == {}
  {
    hide Complete, Stored, AllDecode, Pending;
    ResumesExactly(candidates, b, t, |t.writes|);
    assert t.writes[..|t.writes|] == t.writes && Done(t.writes[|t.writes|..]) == {};
  }

  /** A complete judgement has one write for each pending snapshot. */
  lemma OneWriteEach(candidates: seq<Candidate>, b: Book, t: Tally)
    requires Complete(candidates, b, t)
    ensures |t.writes| == |Pending(candidates, b)|
  {
    hide CachedJudged, CachedOne, WithSnapshot, SnapshotOf;
    DoneSize(candidates, b, t.writes);
    forall s ensures s in Done(t.writes) <==> s in Pending(candidates, b) {
      PendingEither(candidates, b, s);
      WrittenIsPending(candidates, b, t, s);
    }
    assert Done(t.writes) == Pending(candidates, b);
  }

  lemma WrittenIsPending(candidates: seq<Candidate>, b: Book, t: Tally, s: string)
    requires Complete(candidates, b, t)
    ensures s in Done(t.writes) ==> PendingSnapshot(candidates, b, s)
    ensures s in Pending(candidates, b) ==> s in Done(t.writes)
  {
    hide CachedJudged, CachedOne, WithSnapshot, SnapshotOf, PendingSnapshot;
    if s in Done(t.writes) {
      var k :| 0 <= k < |t.writes| && t.writes[k].key.snapshot == s;
      assert PendingWrite(candidates, b, t.writes[k]);
    }
    if s in Pending(candidates, b) {
      var c :| c in candidates && !Hit(c, b) && SnapshotOf(c, b.r.sha) == s;
      assert FreshOne(c, b, t.results, t.writes);
    }
  }

  lemma EmptyFlush(labels: Labels, codec: Codec)
    ensures forall writes: seq<LabelWrite> :: Stored(labels, writes[..0], codec) == labels
  {
  }

  lemma CallsArePending(candidates: seq<Candidate>, b: Book, writes: seq<LabelWrite>, calls: seq<Call>)
    requires OneCallEach(candidates, b, writes, calls)
    ensures calls != [] ==> PendingSnapshot(candidates, b, calls[0].snapshot)
  {
  }

  lemma CachedResult(candidates: seq<Candidate>, b: Book, results: Results, c: Candidate)
    requires CachedJudged(candidates, b, results) && c in candidates && Hit(c, b)
    ensures CachedOne(c, b, results)
  {
  }

  lemma HitNextTime(candidates: seq<Candidate>, b: Book, t: Tally, c: Candidate)
    requires b.r.stored && RoundTrips(b.codec) && Complete(candidates, b, t) && c in candidates
    ensures var next := NextBook(b, t.writes);
      && Hit(c, next) && c.id in t.results
      && b.codec.decode(next.labels[KeyOf(c, b.r)]) == Some(t.results[c.id].verdict)
  {
    hide Stored, SnapshotOf, WithSnapshot;
    StoredHas(b.labels, t.writes, b.codec, KeyOf(c, b.r));
    if Hit(c, b) {
      assert CachedOne(c, b, t.results);
      forall k | 0 <= k < |t.writes| ensures t.writes[k].key != KeyOf(c, b.r) {
        assert PendingWrite(candidates, b, t.writes[k]);
      }
    } else {
      assert FreshOne(c, b, t.results, t.writes);
    }
  }

  lemma NothingPending(candidates: seq<Candidate>, b: Book, t: Tally, s: string)
    requires b.r.stored && RoundTrips(b.codec) && Complete(candidates, b, t)
    ensures !PendingSnapshot(candidates, NextBook(b, t.writes), s)
  {
    hide Stored, Complete;
    var group := WithSnapshot(candidates, s, b.r.sha);
    if group != [] {
      assert group[0] in group;
      HitNextTime(candidates, b, t, group[0]);
    }
  }

  /** Two evaluations of the same candidates: the second one needs neither the model nor the store. */
  method EvaluateTwice(judge: Judge, candidates: seq<Candidate>, r: Request, replies: Call -> Reply,
                       broken: nat -> bool)
    returns (first: Option<Tally>, second: Option<Tally>)
    requires DistinctIds(candidates) && judge.limit >= 1
    modifies judge
    ensures first.Some? && r.stored && RoundTrips(judge.codec) ==>
      && second.Some? && second.value.calls == [] && second.value.writes == []
      && forall c :: c in candidates ==>
           && c.id in first.value.results && c.id in second.value.results
           && second.value.results[c.id] == Judged(first.value.results[c.id].verdict, true, 0)
  {
    hide Complete, AllDecode, Pending, Stored, RoundTrips;
    second := None;
    ghost var b := judge.BookFor(r);
    ghost var judged, done, trace;
    first, judged, done, trace := judge.Evaluate(candidates, r);
    if first.Some? {
      var again := new Judge(judge.labels, judge.codec, judge.limit, replies, broken);
      second, judged, done, trace := again.Evaluate(candidates, r);
      if r.stored && RoundTrips(judge.codec) {
        assert first.value.writes[..|first.value.writes|] == first.value.writes;
        SecondCallCompletes(candidates, b, first.value);
        SecondCallHits(candidates, b, first.value, second.value);
      }
    }
  }

  // ----- The concurrent phase

  ghost predicate SpreadOver(before: Results, group: seq<Candidate>, judged: Judged, after: Results) {
    && after.Keys == before.Keys + (set c | c in group :: c.id)
    && (forall c :: c in group ==> after[c.id] == judged)
    && (forall id :: id in before && (forall c :: c in group ==> c.id != id) ==> after[id] == before[id])
  }

  /** The snapshots judged so far. */
  ghost function Done(writes: seq<LabelWrite>): set<string> {
    set k | 0 <= k < |writes| :: writes[k].key.snapshot
  }

  ghost predicate Partition(all: set<string>, waiting: set<string>, running: set<string>, done: set<string>) {
    && waiting + running + done == all
    && waiting !! running && waiting !! done && running !! done
  }

  lemma MoveToRunning(all: set<string>, waiting: set<string>, running: set<string>, done: set<string>, s: string)
    requires Partition(all, waiting, running, done) && s in waiting
    ensures s in all && s !in running && s !in done && Partition(all, waiting - {s}, running + {s}, done)
  {
  }

  lemma MoveToDone(all: set<string>, waiting: set<string>, running: set<string>, done: set<string>, s: string)
    requires Partition(all, waiting, running, done) && s in running
    ensures s in all && s !in done && Partition(all, waiting, running - {s}, done + {s})
  {
  }

  ghost predicate CalledSoFar(candidates: seq<Candidate>, b: Book, calls: seq<Call>, running: set<string>,
                              done: set<string>) {
    && (forall i, j :: 0 <= i < j < |calls| ==> calls[i].snapshot != calls[j].snapshot)
    && (forall k :: 0 <= k < |calls| ==> PendingCall(candidates, b, calls[k]))
    && (forall k :: 0 <= k < |calls| ==> calls[k].snapshot in running || calls[k].snapshot in done)
    && (forall s :: s in running ==> exists c :: c in calls && c.snapshot == s)
  }

  ghost predicate WrittenSoFar(candidates: seq<Candidate>, b: Book, writes: seq<LabelWrite>) {
    && (forall i, j :: 0 <= i < j < |writes| ==> writes[i].key != writes[j].key)
    && (forall k :: 0 <= k < |writes| ==> PendingWrite(candidates, b, writes[k]))
  }

  ghost predicate JudgedSoFar(candidates: seq<Candidate>, b: Book, results: Results, writes: seq<LabelWrite>) {
    && results.Keys == (set c | c in candidates && (Hit(c, b) || SnapshotOf(c, b.r.sha) in Done(writes)) :: c.id)
    && CachedJudged(candidates, b, results)
    && forall c :: c in candidates && !Hit(c, b) && SnapshotOf(c, b.r.sha) in Done(writes) ==>
        FreshOne(c, b, results, writes)
  }

  lemma NothingJudged(candidates: seq<Candidate>, b: Book, results: Results, groups: map<string, seq<Candidate>>)
    requires LookedUp(candidates, b, results)
    ensures JudgedSoFar(candidates, b, results, []) && WrittenSoFar(candidates, b, [])
    ensures CalledSoFar(candidates, b, [], {}, {}) && Partition(groups.Keys, groups.Keys, {}, Done([]))
      && Done([]) == {}
  {
    hide Hit, SnapshotOf;
    assert Done([]) == {};
  }

  lemma GroupIsPending(candidates: seq<Candidate>, b: Book, groups: map<string, seq<Candidate>>, s: string)
    requires Grouped(candidates, b, groups) && s in groups
    ensures PendingSnapshot(candidates, b, s) && groups[s] == WithSnapshot(candidates, s, b.r.sha) != []
  {
  }

  lemma CallStep(candidates: seq<Candidate>, b: Book, calls: seq<Call>, running: set<string>, done: set<string>,
                 s: string)
    requires CalledSoFar(candidates, b, calls, running, done) && s !in running && s !in done
      && PendingSnapshot(candidates, b, s)
    ensures WithSnapshot(candidates, s, b.r.sha) != []
    ensures CalledSoFar(candidates, b, calls + [Call(s, WithSnapshot(candidates, s, b.r.sha)[0].id)],
                        running + {s}, done)
  {
    hide WithSnapshot;
  }

  lemma CallsFinish(candidates: seq<Candidate>, b: Book, calls: seq<Call>, running: set<string>, done: set<string>,
                    s: string)
    requires CalledSoFar(candidates, b, calls, running, done)
    ensures CalledSoFar(candidates, b, calls, running - {s}, done + {s})
  {
    hide PendingSnapshot;
  }

  lemma DoneStep(writes: seq<LabelWrite>, w: LabelWrite)
    ensures Done(writes + [w]) == Done(writes) + {w.key.snapshot}
  {
    var more := writes + [w];
    forall s ensures s in Done(more) <==> s in Done(writes) || s == w.key.snapshot {
      if s in Done(writes) {
        var k :| 0 <= k < |writes| && writes[k].key.snapshot == s;
        assert more[k].key.snapshot == s;
      }
      assert more[|writes|].key.snapshot == w.key.snapshot;
    }
  }

  /** One more verdict, handed to every candidate of its snapshot. */
  lemma WriteStep(candidates: seq<Candidate>, b: Book, before: Results, writes: seq<LabelWrite>, w: LabelWrite,
                  after: Results)
    requires DistinctIds(candidates) && JudgedSoFar(candidates, b, before, writes)
      && WrittenSoFar(candidates, b, writes)
    requires PendingWrite(candidates, b, w) && w.key.snapshot !in Done(writes)
    requires SpreadOver(before, WithSnapshot(candidates, w.key.snapshot, b.r.sha),
                        Judged(w.verdict, false, w.latency), after)
    ensures JudgedSoFar(candidates, b, after, writes + [w]) && WrittenSoFar(candidates, b, writes + [w])
    ensures Done(writes + [w]) == Done(writes) + {w.key.snapshot}
  {
    DoneStep(writes, w);
    WrittenStep(candidates, b, writes, w);
    JudgedStep(candidates, b, before, writes, w, after);
  }

  lemma WrittenStep(candidates: seq<Candidate>, b: Book, writes: seq<LabelWrite>, w: LabelWrite)
    requires WrittenSoFar(candidates, b, writes) && PendingWrite(candidates, b, w) && w.key.snapshot !in Done(writes)
    ensures WrittenSoFar(candidates, b, writes + [w])
  {
    hide PendingSnapshot;
    forall i | 0 <= i < |writes| ensures writes[i].key != w.key {
      assert writes[i].key.snapshot in Done(writes);
    }
  }

  lemma IdsAreUnique(candidates: seq<Candidate>, c: Candidate, d: Candidate)
    requires DistinctIds(candidates) && c in candidates && d in candidates && c.id == d.id
    ensures c == d
  {
  }

  lemma JudgedStep(candidates: seq<Candidate>, b: Book, before: Results, writes: seq<LabelWrite>, w: LabelWrite,
                   after: Results)
    requires DistinctIds(candidates) && JudgedSoFar(candidates, b, before, writes)
    requires PendingWrite(candidates, b, w) && w.key.snapshot !in Done(writes)
    requires SpreadOver(before, WithSnapshot(candidates, w.key.snapshot, b.r.sha),
                        Judged(w.verdict, false, w.latency), after)
    ensures JudgedSoFar(candidates, b, after, writes + [w])
  {
    hide PendingSnapshot, WithSnapshot, JudgedSoFar, CachedJudged, FreshOne, DistinctIds, Done;
    DoneStep(writes, w);
    forall c | c in candidates
      ensures HasResult(c, b, after, writes + [w])
    {
      ResultStep(candidates, b, before, writes, w, after, c);
    }
    IdsStep(candidates, b, before, writes, w, after);
    ResultsTogether(candidates, b, after, writes + [w]);
  }

  /** The result of one candidate, if it is due. */
  ghost predicate HasResult(c: Candidate, b: Book, results: Results, writes: seq<LabelWrite>) {
    if Hit(c, b) then CachedOne(c, b, results)
    else SnapshotOf(c, b.r.sha) in Done(writes) ==> FreshOne(c, b, results, writes)
  }

  lemma ResultsTogether(candidates: seq<Candidate>, b: Book, results: Results, writes: seq<LabelWrite>)
    requires forall c :: c in candidates ==> HasResult(c, b, results, writes)
    requires results.Keys == set c | c in candidates && (Hit(c, b) || SnapshotOf(c, b.r.sha) in Done(writes)) :: c.id
    ensures JudgedSoFar(candidates, b, results, writes)
  {
    hide Done, FreshOne, SnapshotOf, Hit, CachedOne;
    forall c | c in candidates && Hit(c, b) ensures CachedOne(c, b, results) {
      assert HasResult(c, b, results, writes);
    }
    forall c | c in candidates && !Hit(c, b) && SnapshotOf(c, b.r.sha) in Done(writes)
      ensures FreshOne(c, b, results, writes) {
      assert HasResult(c, b, results, writes);
    }
  }

  lemma IdsStep(candidates: seq<Candidate>, b: Book, before: Results, writes: seq<LabelWrite>, w: LabelWrite,
                after: Results)
    requires JudgedSoFar(candidates, b, before, writes) && PendingWrite(candidates, b, w)
    requires SpreadOver(before, WithSnapshot(candidates, w.key.snapshot, b.r.sha),
                        Judged(w.verdict, false, w.latency), after)
    ensures after.Keys == set c | c in candidates && (Hit(c, b) || SnapshotOf(c, b.r.sha) in Done(writes + [w])) :: c.id
  {
    hide PendingSnapshot, CachedJudged, FreshOne, Done, Hit, SnapshotOf;
    DoneStep(writes, w);
  }

  lemma ResultStep(candidates: seq<Candidate>, b: Book, before: Results, writes: seq<LabelWrite>, w: LabelWrite,
                   after: Results, c: Candidate)
    requires DistinctIds(candidates) && JudgedSoFar(candidates, b, before, writes) && c in candidates
    requires PendingWrite(candidates, b, w) && w.key.snapshot !in Done(writes)
    requires SpreadOver(before, WithSnapshot(candidates, w.key.snapshot, b.r.sha),
                        Judged(w.verdict, false, w.latency), after)
    ensures HasResult(c, b, after, writes + [w])
  {
    hide Done, DistinctIds;
    DoneStep(writes, w);
    var s, more := w.key.snapshot, writes + [w];
    var group := WithSnapshot(candidates, s, b.r.sha);
    if SnapshotOf(c, b.r.sha) == s {
      assert c in group && more[|writes|] == w;
    } else {
      forall d | d in group ensures d.id != c.id {
        if d.id == c.id {
          IdsAreUnique(candidates, c, d);
        }
      }
      if !Hit(c, b) && SnapshotOf(c, b.r.sha) in Done(writes) {
        assert FreshOne(c, b, before, writes);
        var k :| 0 <= k < |writes| && writes[k].key == KeyOf(c, b.r) && c.id in before
          && before[c.id] == Judged(writes[k].verdict, false, writes[k].latency);
        assert more[k] == writes[k];
      }
    }
  }

  /** The concurrent phase: the groups, the snapshots that wait and those being asked about. */
  datatype Phase = Phase(groups: map<string, seq<Candidate>>, waiting: set<string>, running: set<string>)

  ghost predicate Underway(candidates: seq<Candidate>, b: Book, p: Phase, t: Tally) {
    && Grouped(candidates, b, p.groups) && Partition(p.groups.Keys, p.waiting, p.running, Done(t.writes))
    && |t.calls| == |p.running| + |t.writes|
    && CalledSoFar(candidates, b, t.calls, p.running, Done(t.writes))
    && WrittenSoFar(candidates, b, t.writes) && JudgedSoFar(candidates, b, t.results, t.writes)
  }

  lemma NothingUnderway(candidates: seq<Candidate>, b: Book, results: Results, groups: map<string, seq<Candidate>>)
    requires LookedUp(candidates, b, results) && Grouped(candidates, b, groups)
    ensures Underway(candidates, b, Phase(groups, groups.Keys, {}), Tally(results, [], []))
  {
    hide LookedUp, Grouped, PendingSnapshot, JudgedSoFar, WrittenSoFar;
    NothingJudged(candidates, b, results, groups);
  }

  lemma StartStep(candidates: seq<Candidate>, b: Book, p: Phase, t: Tally, s: string)
    requires Underway(candidates, b, p, t) && s in p.waiting
    ensures s in p.groups && p.groups[s] != [] && s !in p.running
    ensures Underway(candidates, b, p.(waiting := p.waiting - {s}, running := p.running + {s}),
                     t.(calls := t.calls + [Call(s, p.groups[s][0].id)]))
  {
    hide Grouped, PendingSnapshot, JudgedSoFar, WrittenSoFar, CalledSoFar, WithSnapshot, Done, Partition;
    MoveToRunning(p.groups.Keys, p.waiting, p.running, Done(t.writes), s);
    GroupIsPending(candidates, b, p.groups, s);
    CallStep(candidates, b, t.calls, p.running, Done(t.writes), s);
  }

  lemma RunningIsKnown(candidates: seq<Candidate>, b: Book, p: Phase, t: Tally, s: string)
    requires Underway(candidates, b, p, t) && s in p.running
    ensures s in p.groups && p.groups[s] != [] && s in Pending(candidates, b)
    ensures CallFor(candidates, b, s) == Call(s, p.groups[s][0].id)
  {
    GroupIsPending(candidates, b, p.groups, s);
    PendingEither(candidates, b, s);
  }

  lemma WasCalled(candidates: seq<Candidate>, b: Book, p: Phase, t: Tally, s: string)
    requires Underway(candidates, b, p, t) && s in p.running
    ensures exists c :: c in t.calls && c.snapshot == s
  {
  }

  lemma CountsOf(candidates: seq<Candidate>, b: Book, p: Phase, t: Tally)
    requires Underway(candidates, b, p, t)
    ensures |t.calls| == |p.running| + |t.writes|
  {
  }

  /** When all are judged, the replies that were used are those to all pending snapshots. */
  lemma AllReplied(candidates: seq<Candidate>, b: Book, t: Tally, replies: Call -> Reply)
    requires Complete(candidates, b, t) && Replied(candidates, b, t.writes, replies)
    ensures JudgedByModel(candidates, b, t.results, replies)
    ensures forall s :: s in Pending(candidates, b) ==> replies(CallFor(candidates, b, s)).Reply?
  {
    hide PendingSnapshot, CallFor, Hit, SnapshotOf;
    forall c | c in candidates && !Hit(c, b)
      ensures var reply := replies(CallFor(candidates, b, SnapshotOf(c, b.r.sha)));
        && reply.Reply? && c.id in t.results
        && t.results[c.id] == Judged(reply.verdict, false, if reply.latency < 1 then 1 else reply.latency)
    {
      assert FreshOne(c, b, t.results, t.writes);
      var k := WriteOf(c, b, t.results, t.writes);
      assert RepliedOne(candidates, b, t.writes[k], replies);
    }
  }

  lemma PendingEither(candidates: seq<Candidate>, b: Book, s: string)
    ensures PendingSnapshot(candidates, b, s) <==> s in Pending(candidates, b)
  {
    var group := WithSnapshot(candidates, s, b.r.sha);
    if PendingSnapshot(candidates, b, s) {
      assert group[0] in group && !Hit(group[0], b);
    }
    if s in Pending(candidates, b) {
      var c :| c in candidates && !Hit(c, b) && SnapshotOf(c, b.r.sha) == s;
      MissIsPending(candidates, b, c);
    }
  }

  lemma {:induction false} DoneSize(candidates: seq<Candidate>, b: Book, writes: seq<LabelWrite>)
    requires WrittenSoFar(candidates, b, writes)
    ensures |Done(writes)| == |writes|
  {
    hide PendingSnapshot;
    if writes == [] {
      assert Done(writes) == {};
    } else {
      var front, w := writes[..|writes| - 1], writes[|writes| - 1];
      DoneSize(candidates, b, front);
      assert front + [w] == writes;
      DoneStep(front, w);
      LastIsNew(candidates, b, front, w);
    }
  }

  lemma LastIsNew(candidates: seq<Candidate>, b: Book, front: seq<LabelWrite>, w: LabelWrite)
    requires WrittenSoFar(candidates, b, front + [w])
    ensures w.key.snapshot !in Done(front)
  {
    hide PendingSnapshot;
    var writes := front + [w];
    assert PendingWrite(candidates, b, writes[|front|]);
    forall k | 0 <= k < |front| ensures front[k].key.snapshot != w.key.snapshot {
      assert PendingWrite(candidates, b, writes[k]);
      assert writes[k].key != writes[|front|].key;
    }
  }

  lemma FinishStep(candidates: seq<Candidate>, b: Book, p: Phase, t: Tally, w: LabelWrite, after: Results)
    requires Underway(candidates, b, p, t) && DistinctIds(candidates)
    requires w.key.snapshot in p.running && w.key.snapshot in p.groups
    requires w.key == LabelKey(b.r.task, w.key.snapshot, b.r.contract)
    requires SpreadOver(t.results, p.groups[w.key.snapshot], Judged(w.verdict, false, w.latency), after)
    ensures Underway(candidates, b, p.(running := p.running - {w.key.snapshot}), Tally(after, t.writes + [w], t.calls))
  {
    hide Grouped, PendingSnapshot, JudgedSoFar, WrittenSoFar, CalledSoFar, WithSnapshot, Done, SpreadOver, DistinctIds;
    hide Partition;
    var s := w.key.snapshot;
    GroupIsPending(candidates, b, p.groups, s);
    MoveToDone(p.groups.Keys, p.waiting, p.running, Done(t.writes), s);
    CallsFinish(candidates, b, t.calls, p.running, Done(t.writes), s);
    WriteStep(candidates, b, t.results, t.writes, w, after);
  }

  lemma AllJudged(candidates: seq<Candidate>, b: Book, p: Phase, t: Tally)
    requires Underway(candidates, b, p, t) && p.waiting == {} && p.running == {}
    ensures Complete(candidates, b, t)
  {
    hide PendingSnapshot, WithSnapshot, Done, CachedOne, FreshOne, Hit, SnapshotOf;
    forall c | c in candidates && !Hit(c, b) ensures SnapshotOf(c, b.r.sha) in Done(t.writes) {
      MissIsPending(candidates, b, c);
      assert SnapshotOf(c, b.r.sha) in p.groups.Keys;
    }
  }

  lemma MissIsPending(candidates: seq<Candidate>, b: Book, c: Candidate)
    requires c in candidates && !Hit(c, b)
    ensures PendingSnapshot(candidates, b, SnapshotOf(c, b.r.sha))
  {
    assert c in WithSnapshot(candidates, SnapshotOf(c, b.r.sha), b.r.sha);
  }

  /** The results of the lookup loop: the cached candidates and no others. */
  ghost predicate LookedUp(candidates: seq<Candidate>, b: Book, results: Results) {
    && results.Keys == (set c | c in candidates && Hit(c, b) :: c.id)
    && CachedJudged(candidates, b, results)
  }

  /** The groups of the lookup loop: the pending snapshots, each with its candidates. */
  ghost predicate Grouped(candidates: seq<Candidate>, b: Book, groups: map<string, seq<Candidate>>) {
    && (forall s :: s in groups <==> PendingSnapshot(candidates, b, s))
    && (forall s :: s in groups ==> groups[s] == WithSnapshot(candidates, s, b.r.sha))
  }

  lemma LookedUpDecodes(candidates: seq<Candidate>, b: Book, results: Results)
    requires LookedUp(candidates, b, results)
    ensures forall c :: c in candidates && Hit(c, b) ==> b.codec.decode(b.labels[KeyOf(c, b.r)]).Some?
  {
  }

  lemma NewId(candidates: seq<Candidate>, i: nat)
    requires i < |candidates| && DistinctIds(candidates)
    ensures candidates[i] in candidates && forall d :: d in candidates[..i] ==> d.id != candidates[i].id
  {
    forall d | d in candidates[..i] ensures d.id != candidates[i].id {
      var j :| 0 <= j < i && candidates[..i][j] == d;
      assert candidates[j] == d;
    }
  }

  lemma OneMoreCandidate(before: seq<Candidate>, c: Candidate, b: Book, results: Results,
                         groups: map<string, seq<Candidate>>)
    requires LookedUp(before, b, results) && Grouped(before, b, groups)
    requires forall d :: d in before ==> d.id != c.id
    ensures Hit(c, b) && b.codec.decode(b.labels[KeyOf(c, b.r)]).Some? ==>
      LookedUp(before + [c], b, results[c.id := Judged(b.codec.decode(b.labels[KeyOf(c, b.r)]).value, true, 0)])
    ensures Hit(c, b) ==> Grouped(before + [c], b, groups)
    ensures !Hit(c, b) ==> LookedUp(before + [c], b, results)
    ensures !Hit(c, b) ==>
      var s := SnapshotOf(c, b.r.sha);
      Grouped(before + [c], b, groups[s := (if s in groups then groups[s] else []) + [c]])
  {
    hide Grouped, LookedUp;
    if Hit(c, b) {
      GroupsStay(before, c, b, groups);
      if b.codec.decode(b.labels[KeyOf(c, b.r)]).Some? {
        LookUpHit(before, c, b, results);
      }
    } else {
      LookUpMiss(before, c, b, results);
      GroupsGrow(before, c, b, groups);
    }
  }

  lemma LookUpHit(before: seq<Candidate>, c: Candidate, b: Book, results: Results)
    requires LookedUp(before, b, results) && (forall d :: d in before ==> d.id != c.id)
    requires Hit(c, b) && b.codec.decode(b.labels[KeyOf(c, b.r)]).Some?
    ensures LookedUp(before + [c], b, results[c.id := Judged(b.codec.decode(b.labels[KeyOf(c, b.r)]).value, true, 0)])
  {
    hide Hit, SnapshotOf;
    assert forall d :: d in before + [c] <==> d in before || d == c;
  }

  lemma LookUpMiss(before: seq<Candidate>, c: Candidate, b: Book, results: Results)
    requires LookedUp(before, b, results) && !Hit(c, b)
    ensures LookedUp(before + [c], b, results)
  {
    hide SnapshotOf;
    assert forall d :: d in before + [c] <==> d in before || d == c;
  }

  lemma WithOneMore(before: seq<Candidate>, c: Candidate, s: string, sha: string -> string)
    ensures WithSnapshot(before + [c], s, sha) ==
      WithSnapshot(before, s, sha) + if SnapshotOf(c, sha) == s then [c] else []
  {
    assert (before + [c])[..|before|] == before;
  }

  lemma GroupsStay(before: seq<Candidate>, c: Candidate, b: Book, groups: map<string, seq<Candidate>>)
    requires Grouped(before, b, groups) && Hit(c, b)
    ensures Grouped(before + [c], b, groups)
  {
    hide SnapshotOf, WithSnapshot;
    forall s ensures PendingSnapshot(before + [c], b, s) <==> PendingSnapshot(before, b, s)
      ensures PendingSnapshot(before, b, s) ==>
        WithSnapshot(before + [c], s, b.r.sha) == WithSnapshot(before, s, b.r.sha)
    {
      WithOneMore(before, c, s, b.r.sha);
    }
  }

  lemma GroupsGrow(before: seq<Candidate>, c: Candidate, b: Book, groups: map<string, seq<Candidate>>)
    requires Grouped(before, b, groups) && !Hit(c, b)
    ensures var s := SnapshotOf(c, b.r.sha);
      Grouped(before + [c], b, groups[s := (if s in groups then groups[s] else []) + [c]])
  {
    hide SnapshotOf, WithSnapshot;
    var s := SnapshotOf(c, b.r.sha);
    var more := groups[s := (if s in groups then groups[s] else []) + [c]];
    forall t ensures t in more <==> PendingSnapshot(before + [c], b, t)
      ensures t in more ==> more[t] == WithSnapshot(before + [c], t, b.r.sha)
    {
      WithOneMore(before, c, t, b.r.sha);
    }
  }
}
