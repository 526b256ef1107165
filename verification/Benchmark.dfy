/**
 The benchmark command's scheduler: a queue of pending attempts, a map of running ones,
 retries, and one result per input row, driven by whatever `wait` reports as done.
 */
module Benchmark {
  import opened Basics

  // ----- Input rows

  /** A line of a JSONL file after decoding. */
  datatype Line = Blank | Malformed | Record(hasDescription: bool, hasTitle: bool, payload: string)

  datatype Row = Row(payload: string, file: nat, inputIndex: nat)

  datatype Loaded = Loaded(rows: seq<Row>) | LoadError

  predicate Usable(line: Line) {
    line.Record? && line.hasDescription && line.hasTitle
  }

  /** The payloads of the usable lines, in order. */
  function Payloads(lines: seq<Line>): seq<string> {
    if lines == [] then []
    else Payloads(lines[..|lines| - 1]) + if Usable(lines[|lines| - 1]) then [lines[|lines| - 1].payload] else []
  }

  /** A blank line gives nothing, a record its payload, and lines in sequence their payloads in sequence. */
  lemma {:induction false} PayloadsInOrder(lines: seq<Line>, more: seq<Line>, line: Line)
    ensures Payloads([line]) ==
      if line.Record? && line.hasDescription && line.hasTitle then [line.payload] else []
    ensures Payloads(lines + more) == Payloads(lines) + Payloads(more)
  {
    assert [line][..0] == [];
    if more == [] {
      assert lines + more == lines;
    } else {
      var front := more[..|more| - 1];
      PayloadsInOrder(lines, front, line);
      assert (lines + more)[..|lines + more| - 1] == lines + front;
    }
  }

  /** Rows numbered from `start` that carry the given payloads of one file. */
  ghost predicate Numbered(rows: seq<Row>, payloads: seq<string>, file: nat, start: nat) {
    |rows| == |payloads| && forall i :: 0 <= i < |rows| ==> rows[i] == Row(payloads[i], file, start + i)
  }

  /** Every line is blank or usable, and one is usable. */
  ghost predicate Loadable(lines: seq<Line>) {
    (forall l :: l in lines ==> l.Blank? || Usable(l)) && Payloads(lines) != []
  }

  method LoadRows(lines: seq<Line>, file: nat, start: nat) returns (result: Loaded)
    ensures result.Loaded? <==> Loadable(lines)
    ensures result.Loaded? ==> result.rows != [] && Numbered(result.rows, Payloads(lines), file, start)
  {
    var rows: seq<Row> := [];
    for k := 0 to |lines|
      invariant forall l :: l in lines[..k] ==> l.Blank? || Usable(l)
      invariant Numbered(rows, Payloads(lines[..k]), file, start)
    {
      assert lines[..k + 1][..k] == lines[..k] && lines[k] in lines;
      assert lines[..k + 1] == lines[..k] + [lines[k]];
      if !lines[k].Blank? {
        if !Usable(lines[k]) {
          return LoadError;
        }
        rows := rows + [Row(lines[k].payload, file, start + |rows|)];
      }
    }
    assert lines[..|lines|] == lines;
    result := if rows == [] then LoadError else Loaded(rows);
  }

  function AllPayloads(files: seq<seq<Line>>): seq<string> {
    if files == [] then [] else AllPayloads(files[..|files| - 1]) + Payloads(files[|files| - 1])
  }

  lemma {:induction false} FilesInOrder(files: seq<seq<Line>>, more: seq<seq<Line>>, file: seq<Line>)
    ensures AllPayloads([file]) == Payloads(file)
    ensures AllPayloads(files + more) == AllPayloads(files) + AllPayloads(more)
  {
    assert [file][..0] == [] && AllPayloads([]) == [];
    hide Payloads;
    if more == [] {
      assert files + more == files;
    } else {
      FilesInOrder(files, more[..|more| - 1], file);
      assert (files + more)[..|files + more| - 1] == files + more[..|more| - 1];
    }
  }

  /** Row `i` of the whole input carries index `i` and the `i`-th payload, whatever its file. */
  ghost predicate IndexedInOrder(rows: seq<Row>, payloads: seq<string>) {
    |rows| == |payloads| && forall i :: 0 <= i < |rows| ==> rows[i].inputIndex == i && rows[i].payload == payloads[i]
  }

  /** The file of every payload, by its place in the list of files. */
  function FileOfEach(files: seq<seq<Line>>): (r: seq<nat>)
    ensures |r| == |AllPayloads(files)|
  {
    if files == [] then []
    else FileOfEach(files[..|files| - 1]) + seq(|Payloads(files[|files| - 1])|, (_: nat) => |files| - 1)
  }

  ghost predicate FromTheirFiles(rows: seq<Row>, files: seq<nat>) {
    |rows| == |files| && forall i :: 0 <= i < |rows| ==> rows[i].file == files[i]
  }

  method LoadDirectory(files: seq<seq<Line>>) returns (result: Loaded)
    ensures result.Loaded? ==> IndexedInOrder(result.rows, AllPayloads(files)) && result.rows != []
    ensures result.Loaded? ==> FromTheirFiles(result.rows, FileOfEach(files))
    ensures result.Loaded? <==> files != [] && forall f :: f in files ==> Loadable(f)
  {
    hide Loadable, Payloads;
    if files == [] {
      return LoadError;
    }
    var rows: seq<Row> := [];
    for k := 0 to |files|
      invariant IndexedInOrder(rows, AllPayloads(files[..k])) && (k > 0 ==> rows != [])
      invariant FromTheirFiles(rows, FileOfEach(files[..k]))
      invariant forall f :: f in files[..k] ==> Loadable(f)
    {
      var part := LoadRows(files[k], k, |rows|);
      assert files[k] in files && files[..k + 1] == files[..k] + [files[k]];
      assert files[..k + 1][..k] == files[..k];
      if part.LoadError? {
        return LoadError;
      }
      rows := rows + part.rows;
    }
    assert files[..|files|] == files;
    result := Loaded(rows);
  }

  // ----- Attempts, sessions and outcomes

  datatype Status = Running | Completed | Failed

  /** What one attempt does: whether it returns, and the state in which it leaves its session. */
  datatype Effect = Effect(succeeds: bool, left: Status)

  datatype Attempt = Attempt(row: nat, number: nat)

  datatype CaseRun = CaseRun(row: nat, status: Status)

  datatype ResultRow = ResultRow(inputIndex: nat, succeeded: bool, attempts: nat, completionIndex: nat, session: nat)

  /** The attempt of `row` that decides its result: the first to return, or the last allowed one. */
  function Deciding(outcome: (nat, nat) -> Effect, retries: nat, row: nat, from: nat): (k: nat)
    requires 1 <= from <= retries + 1
    ensures from <= k <= retries + 1
    ensures forall j :: from <= j < k ==> !outcome(row, j).succeeds
    ensures k <= retries ==> outcome(row, k).succeeds
    decreases retries + 1 - from
  {
    if from > retries || outcome(row, from).succeeds then from else Deciding(outcome, retries, row, from + 1)
  }

  function Sum(s: seq<nat>): nat {
    if s == [] then 0 else s[0] + Sum(s[1..])
  }

  lemma {:induction false} SumUpdate(s: seq<nat>, i: nat, v: nat)
    requires i < |s|
    ensures Sum(s[i := v]) == Sum(s) - s[i] + v
  {
    if i > 0 {
      assert s[i := v][1..] == s[1..][i - 1 := v];
      SumUpdate(s[1..], i - 1, v);
    } else {
      assert s[0 := v][1..] == s[1..];
    }
  }

  /** `wait` reports a nonempty, duplicate-free choice of the futures it is given. */
  ghost predicate IsWait(wait: (nat, set<nat>) -> seq<nat>) {
    forall round, futures: set<nat> :: futures != {} ==>
      && wait(round, futures) != [] && Distinct(wait(round, futures))
      && forall f :: f in wait(round, futures) ==> f in futures
  }

  // ----- The state of a run

  datatype Config = Config(rows: nat, limit: nat, retries: nat, outcome: (nat, nat) -> Effect)

  /** Where the current attempt of a row is. */
  datatype Spot = Queued | Pooled(future: nat) | Done

  /** The scheduler's variables, and three that only record: where every row is, the sessions of
      every row in order of creation, and the rows in order of completion. */
  datatype State = State(pending: seq<Attempt>, running: map<nat, Attempt>, submitted: nat, caseRuns: map<nat, nat>,
                         sessions: seq<CaseRun>, results: map<nat, ResultRow>, completion: nat,
                         spot: seq<Spot>, history: seq<seq<nat>>, order: seq<nat>)

  function Initial(c: Config): State {
    State(seq(c.rows, (i: nat) => Attempt(i, 1)), map[], 0, FirstSessions(c.rows),
          seq(c.rows, (i: nat) => CaseRun(i, Running)), map[], 0,
          seq(c.rows, (i: nat) => Queued), seq(c.rows, (i: nat) => [i]), [])
  }

  function FirstSessions(rows: nat): (m: map<nat, nat>)
    ensures forall i: nat :: i in m <==> i < rows
    ensures forall i: nat :: i in m ==> m[i] == i
  {
    if rows == 0 then map[] else FirstSessions(rows - 1)[rows - 1 := rows - 1]
  }

  /** The attempt is the row's current one and runs against the row's newest session. */
  ghost predicate Current(c: Config, s: State, a: Attempt) {
    && a.row < c.rows && |s.history| == c.rows
    && 1 <= a.number <= c.retries + 1 && |s.history[a.row]| == a.number
    && a.row in s.caseRuns && s.caseRuns[a.row] == s.history[a.row][a.number - 1]
    && Deciding(c.outcome, c.retries, a.row, 1) == Deciding(c.outcome, c.retries, a.row, a.number)
  }

  /** Running attempts are current, and each is where its row is recorded to be. */
  ghost predicate PoolPlaced(c: Config, s: State) {
    && |s.spot| == c.rows && |s.running| <= c.limit
    && (forall f :: f in s.running ==>
        f < s.submitted && Current(c, s, s.running[f]) && s.spot[s.running[f].row] == Pooled(f))
    && (forall i :: 0 <= i < c.rows && s.spot[i].Pooled? ==>
        s.spot[i].future in s.running && s.running[s.spot[i].future].row == i)
  }

  /** So are pending attempts, at most one for a row. */
  ghost predicate QueuePlaced(c: Config, s: State) {
    && |s.spot| == c.rows
    && (forall p :: 0 <= p < |s.pending| ==> Current(c, s, s.pending[p]) && s.spot[s.pending[p].row] == Queued)
    && (forall p, q :: 0 <= p < q < |s.pending| ==> s.pending[p].row != s.pending[q].row)
    && (forall i :: 0 <= i < c.rows && s.spot[i].Queued? ==> InQueue(s.pending, i))
  }

  ghost predicate InQueue(pending: seq<Attempt>, row: nat) {
    exists p :: 0 <= p < |pending| && pending[p].row == row
  }

  /** The result of a finished row is that of its deciding attempt, run against its last session. */
  ghost predicate Decided(c: Config, s: State, row: nat)
    requires row in s.results
  {
    var k := Deciding(c.outcome, c.retries, row, 1);
    && row < c.rows && |s.history| == c.rows && |s.history[row]| == k
    && s.results[row] == ResultRow(row, c.outcome(row, k).succeeds, k, s.results[row].completionIndex,
        s.history[row][k - 1])
  }

  ghost predicate ResultsDecided(c: Config, s: State) {
    && |s.spot| == c.rows
    && (forall i :: i in s.results ==> i < c.rows && Decided(c, s, i))
    && (forall i :: 0 <= i < c.rows ==> (s.spot[i].Done? <==> i in s.results))
    && |s.history| == c.rows && (forall i :: 0 <= i < c.rows ==> 1 <= |s.history[i]| <= c.retries + 1)
  }

  /** Every session is listed once, in the history of its row. */
  ghost predicate SessionsListed(c: Config, s: State) {
    && |s.history| == c.rows
    && (forall i, j :: 0 <= i < c.rows && 0 <= j < |s.history[i]| ==>
          s.history[i][j] < |s.sessions| && s.sessions[s.history[i][j]].row == i)
    && (forall x :: 0 <= x < |s.sessions| ==> s.sessions[x].row < c.rows && x in s.history[s.sessions[x].row])
    && (forall i :: 0 <= i < c.rows ==> Distinct(s.history[i]))
  }

  /** The status in which an attempt leaves its session: its own, or the one the scheduler gives it. */
  function Ending(e: Effect): Status {
    Closed(e.left, if e.succeeds then Completed else Failed)
  }

  /** The newest session of an unfinished row is running; every other has the ending of its attempt. */
  ghost predicate SessionsSettled(c: Config, s: State) {
    && |s.history| == c.rows
    && forall i, j :: 0 <= i < c.rows && 0 <= j < |s.history[i]| ==>
      s.history[i][j] < |s.sessions| && s.sessions[s.history[i][j]].status == StatusOf(c, s, i, j)
  }

  ghost function StatusOf(c: Config, s: State, i: nat, j: nat): Status
    requires i < |s.history| && j < |s.history[i]|
  {
    if i in s.results || j < |s.history[i]| - 1 then Ending(c.outcome(i, j + 1)) else Running
  }

  /** Completion indexes number the results in the order in which they came. */
  ghost predicate Ordered(s: State) {
    && |s.order| == s.completion
    && (forall x :: 0 <= x < s.completion ==> s.order[x] in s.results && s.results[s.order[x]].completionIndex == x)
    && (forall i :: i in s.results ==>
        s.results[i].completionIndex < s.completion && s.order[s.results[i].completionIndex] == i)
  }

  ghost predicate Inv(c: Config, s: State) {
    && c.limit >= 1
    && PoolPlaced(c, s) && QueuePlaced(c, s) && ResultsDecided(c, s) && SessionsListed(c, s)
    && SessionsSettled(c, s) && Ordered(s)
  }

  /** How many attempts every row may still use. */
  ghost function Remaining(c: Config, s: State): (r: seq<nat>)
    ensures |r| == |s.history|
    ensures forall i :: 0 <= i < |r| ==>
      r[i] == if i in s.results || |s.history[i]| > c.retries + 1 then 0 else c.retries + 2 - |s.history[i]|
  {
    seq(|s.history|, i requires 0 <= i < |s.history| =>
      if i in s.results || |s.history[i]| > c.retries + 1 then 0 else c.retries + 2 - |s.history[i]|)
  }

  /** How many completions are possible at most. */
  ghost function Budget(c: Config, s: State): nat {
    Sum(Remaining(c, s))
  }

  // ----- Steps

  function AfterSubmit(s: State): State
    requires s.pending != [] && s.pending[0].row < |s.spot|
  {
    s.(pending := s.pending[1..], running := s.running[s.submitted := s.pending[0]], submitted := s.submitted + 1,
       spot := s.spot[s.pending[0].row := Pooled(s.submitted)])
  }

  function Closed(left: Status, final: Status): Status {
    if left.Running? then final else left
  }

  /** The future is popped; its session is closed if the run did not close it. */
  function AfterRun(s: State, f: nat, e: Effect): State
    requires f in s.running && s.running[f].row in s.caseRuns && s.caseRuns[s.running[f].row] < |s.sessions|
  {
    var x := s.caseRuns[s.running[f].row];
    s.(running := s.running - {f},
       sessions := s.sessions[x := s.sessions[x].(status := Ending(e))])
  }

  /** A failed attempt with retries left: a new session, and back to the queue. */
  function AfterRetry(s: State, a: Attempt): State
    requires a.row < |s.spot| && a.row < |s.history|
  {
    var x := |s.sessions|;
    s.(sessions := s.sessions + [CaseRun(a.row, Running)], caseRuns := s.caseRuns[a.row := x],
       pending := s.pending + [Attempt(a.row, a.number + 1)],
       history := s.history[a.row := s.history[a.row] + [x]], spot := s.spot[a.row := Queued])
  }

  function AfterResult(s: State, a: Attempt, succeeded: bool): State
    requires a.row < |s.spot| && a.row in s.caseRuns
  {
    s.(results := s.results[a.row := ResultRow(a.row, succeeded, a.number, s.completion, s.caseRuns[a.row])],
       completion := s.completion + 1, order := s.order + [a.row], spot := s.spot[a.row := Done])
  }

  /** The attempt behind the future is current and its session known. */
  ghost predicate Completable(c: Config, s: State, f: nat) {
    && f in s.running && Current(c, s, s.running[f]) && |s.spot| == c.rows
    && s.running[f].row !in s.results && s.spot[s.running[f].row] == Pooled(f)
    && s.caseRuns[s.running[f].row] < |s.sessions|
    && s.sessions[s.caseRuns[s.running[f].row]].row == s.running[f].row
  }

  ghost function AfterComplete(c: Config, s: State, f: nat): State
    requires Completable(c, s, f)
  {
    var a := s.running[f];
    var e := c.outcome(a.row, a.number);
    var t := AfterRun(s, f, e);
    if !e.succeeds && a.number <= c.retries then AfterRetry(t, a) else AfterResult(t, a, e.succeeds)
  }

  lemma InvInitially(c: Config)
    requires c.limit >= 1
    ensures Inv(c, Initial(c))
  {
    hide PoolPlaced, QueuePlaced, ResultsDecided, SessionsListed, SessionsSettled, Ordered;
    QueuedInitially(c);
    ListedInitially(c);
  }

  lemma QueuedInitially(c: Config)
    requires c.limit >= 1
    ensures PoolPlaced(c, Initial(c)) && QueuePlaced(c, Initial(c))
  {
    var s := Initial(c);
    forall i | 0 <= i < c.rows ensures InQueue(s.pending, i) {
      assert s.pending[i].row == i;
    }
    hide InQueue;
  }

  lemma ListedInitially(c: Config)
    ensures ResultsDecided(c, Initial(c)) && SessionsListed(c, Initial(c))
    ensures SessionsSettled(c, Initial(c)) && Ordered(Initial(c))
  {
  }

  lemma PoolGrows(c: Config, s: State, t: State, a: Attempt)
    requires PoolPlaced(c, s) && |s.running| < c.limit && a.row < c.rows && s.spot[a.row] == Queued
    requires s.submitted !in s.running
    requires t.running == s.running[s.submitted := a] && t.submitted == s.submitted + 1
    requires t.spot == s.spot[a.row := Pooled(s.submitted)]
    requires forall g :: g in t.running ==> t.running[g].row < c.rows && Current(c, t, t.running[g])
    ensures PoolPlaced(c, t)
  {
    hide Current;
  }

  lemma SubmitKeepsPool(c: Config, s: State)
    requires PoolPlaced(c, s) && s.pending != [] && |s.running| < c.limit
    requires Current(c, s, s.pending[0]) && s.spot[s.pending[0].row] == Queued
    ensures PoolPlaced(c, AfterSubmit(s))
  {
    var t := AfterSubmit(s);
    forall f | f in t.running ensures t.running[f].row < c.rows && Current(c, t, t.running[f]) {
      assert Current(c, s, t.running[f]);
    }
    assert s.submitted !in s.running;
    hide PoolPlaced, Current;
    PoolGrows(c, s, t, s.pending[0]);
  }

  lemma SubmitKeepsQueue(c: Config, s: State)
    requires QueuePlaced(c, s) && s.pending != []
    ensures QueuePlaced(c, AfterSubmit(s))
  {
    var t := AfterSubmit(s);
    forall i | 0 <= i < c.rows && t.spot[i].Queued? ensures InQueue(t.pending, i) {
      assert InQueue(s.pending, i);
      var p :| 0 <= p < |s.pending| && s.pending[p].row == i;
      assert t.pending[p - 1].row == i;
    }
  }

  lemma SubmitKeepsRest(c: Config, s: State)
    requires s.pending != [] && s.pending[0].row < |s.spot| && s.spot[s.pending[0].row] == Queued
    ensures ResultsDecided(c, s) ==> ResultsDecided(c, AfterSubmit(s))
    ensures SessionsListed(c, s) ==> SessionsListed(c, AfterSubmit(s))
    ensures SessionsSettled(c, s) ==> SessionsSettled(c, AfterSubmit(s))
    ensures Ordered(s) ==> Ordered(AfterSubmit(s))
  {
  }

  lemma SubmitKeepsInv(c: Config, s: State)
    requires Inv(c, s) && s.pending != [] && |s.running| < c.limit
    ensures s.pending[0].row < |s.spot| && Inv(c, AfterSubmit(s))
  {
    assert Current(c, s, s.pending[0]) && s.spot[s.pending[0].row] == Queued by {
      hide PoolPlaced, ResultsDecided, SessionsListed, SessionsSettled, Ordered;
    }
    hide PoolPlaced, QueuePlaced, ResultsDecided, SessionsListed, SessionsSettled, Ordered, AfterSubmit;
    assert |s.spot| == c.rows;
    SubmitKeepsPool(c, s);
    SubmitKeepsQueue(c, s);
    SubmitKeepsRest(c, s);
  }

  lemma RunningIsCompletable(c: Config, s: State, f: nat)
    requires Inv(c, s) && f in s.running
    ensures Completable(c, s, f)
  {
    hide QueuePlaced, SessionsSettled, Ordered;
  }

  /** Attempts of other rows stay current. */
  lemma OthersStayCurrent(c: Config, s: State, f: nat, a: Attempt)
    requires Completable(c, s, f) && Current(c, s, a) && a.row != s.running[f].row
    ensures Current(c, AfterComplete(c, s, f), a)
  {
  }

  lemma PoolAfterComplete(c: Config, s: State, f: nat)
    requires Completable(c, s, f)
    ensures var t := AfterComplete(c, s, f);
      && |t.running| == |s.running| - 1 && t.submitted == s.submitted
      && t.running == s.running - {f} && |t.spot| == c.rows
      && t.spot == s.spot[s.running[f].row := t.spot[s.running[f].row]] && !t.spot[s.running[f].row].Pooled?
  {
    assert s.running.Keys - {f} == AfterComplete(c, s, f).running.Keys;
  }

  lemma PoolShrinks(c: Config, s: State, t: State, f: nat, next: Spot)
    requires PoolPlaced(c, s) && f in s.running && s.running[f].row < c.rows
    requires t.running == s.running - {f} && |t.running| <= |s.running| && t.submitted == s.submitted
    requires t.spot == s.spot[s.running[f].row := next] && !next.Pooled?
    requires forall g :: g in t.running ==> t.running[g].row < c.rows && Current(c, t, t.running[g])
    ensures PoolPlaced(c, t)
  {
    hide Current;
  }

  lemma CompleteKeepsPool(c: Config, s: State, f: nat)
    requires Completable(c, s, f) && PoolPlaced(c, s)
    ensures PoolPlaced(c, AfterComplete(c, s, f))
  {
    var t := AfterComplete(c, s, f);
    PoolAfterComplete(c, s, f);
    hide AfterComplete;
    forall g | g in t.running ensures t.running[g].row < c.rows && Current(c, t, t.running[g]) {
      OthersStayCurrent(c, s, f, s.running[g]);
    }
    hide PoolPlaced, Current;
    PoolShrinks(c, s, t, f, t.spot[s.running[f].row]);
  }

  lemma QueueAfterComplete(c: Config, s: State, f: nat)
    requires Completable(c, s, f)
    ensures var t := AfterComplete(c, s, f);
      var a := s.running[f];
      if t.spot[a.row].Queued? then
        t.pending == s.pending + [Attempt(a.row, a.number + 1)] && Current(c, t, Attempt(a.row, a.number + 1))
      else
        t.pending == s.pending
  {
  }

  lemma CompleteKeepsQueue(c: Config, s: State, f: nat)
    requires Completable(c, s, f) && QueuePlaced(c, s)
    ensures QueuePlaced(c, AfterComplete(c, s, f))
  {
    var a := s.running[f];
    var t := AfterComplete(c, s, f);
    PoolAfterComplete(c, s, f);
    QueueAfterComplete(c, s, f);
    forall p | 0 <= p < |s.pending| ensures Current(c, t, s.pending[p]) && s.pending[p].row != a.row {
      OthersStayCurrent(c, s, f, s.pending[p]);
    }
    hide AfterComplete, InQueue;
    forall i | 0 <= i < c.rows && t.spot[i].Queued? ensures InQueue(t.pending, i) {
      QueuedStays(s.pending, t.pending, i);
      if i == a.row {
        LastIsQueued(t.pending);
      }
    }
  }

  lemma LastIsQueued(pending: seq<Attempt>)
    requires pending != []
    ensures InQueue(pending, pending[|pending| - 1].row)
  {
  }

  lemma QueuedStays(pending: seq<Attempt>, longer: seq<Attempt>, row: nat)
    requires pending <= longer
    ensures InQueue(pending, row) ==> InQueue(longer, row)
  {
    if InQueue(pending, row) {
      var p :| 0 <= p < |pending| && pending[p].row == row;
      assert longer[p].row == row;
    }
  }

  lemma CompleteKeepsResults(c: Config, s: State, f: nat)
    requires Completable(c, s, f) && ResultsDecided(c, s)
    ensures ResultsDecided(c, AfterComplete(c, s, f))
  {
    var t := AfterComplete(c, s, f);
    forall i | i in t.results ensures i < c.rows && Decided(c, t, i) {
      if i in s.results {
        assert Decided(c, s, i);
      }
    }
  }

  lemma CompleteKeepsSessions(c: Config, s: State, f: nat)
    requires Completable(c, s, f) && SessionsListed(c, s)
    ensures SessionsListed(c, AfterComplete(c, s, f))
  {
    var a := s.running[f];
    var t := AfterComplete(c, s, f);
    forall x | 0 <= x < |t.sessions| ensures t.sessions[x].row < c.rows && x in t.history[t.sessions[x].row] {
      if x < |s.sessions| {
        assert x in s.history[s.sessions[x].row];
      } else {
        assert t.history[a.row][|s.history[a.row]|] == x;
      }
    }
  }

  lemma CompleteKeepsRuns(c: Config, s: State, f: nat)
    requires Completable(c, s, f) && SessionsSettled(c, s) && SessionsListed(c, s)
    ensures SessionsSettled(c, AfterComplete(c, s, f))
  {
    var a := s.running[f];
    var t := AfterComplete(c, s, f);
    forall i, j | 0 <= i < c.rows && 0 <= j < |s.history[i]|
      ensures s.history[i][j] == s.caseRuns[a.row] <==> i == a.row && j == a.number - 1
    {
      SessionIsOnce(c, s, i, j, a.row, a.number - 1);
    }
    forall i, j | 0 <= i < c.rows && 0 <= j < |t.history[i]|
      ensures t.history[i][j] < |t.sessions| && t.sessions[t.history[i][j]].status == StatusOf(c, t, i, j)
    {
      if j < |s.history[i]| {
        assert t.history[i][j] == s.history[i][j];
      }
    }
  }

  lemma SessionIsOnce(c: Config, s: State, i: nat, j: nat, k: nat, l: nat)
    requires SessionsListed(c, s) && i < c.rows && k < c.rows && j < |s.history[i]| && l < |s.history[k]|
    ensures s.history[i][j] == s.history[k][l] <==> i == k && j == l
  {
  }

  lemma CompleteKeepsOrder(c: Config, s: State, f: nat)
    requires Completable(c, s, f) && Ordered(s)
    ensures Ordered(AfterComplete(c, s, f))
  {
  }

  lemma CompleteKeepsInv(c: Config, s: State, f: nat)
    requires Inv(c, s) && f in s.running
    ensures Completable(c, s, f) && Inv(c, AfterComplete(c, s, f))
  {
    hide PoolPlaced, QueuePlaced, ResultsDecided, SessionsListed, SessionsSettled, Ordered, AfterComplete, Completable;
    RunningIsCompletable(c, s, f);
    CompleteKeepsPool(c, s, f);
    CompleteKeepsQueue(c, s, f);
    CompleteKeepsResults(c, s, f);
    CompleteKeepsSessions(c, s, f);
    CompleteKeepsRuns(c, s, f);
    CompleteKeepsOrder(c, s, f);
  }

  lemma CompleteShrinksRow(c: Config, s: State, f: nat)
    requires Completable(c, s, f)
    ensures var i := s.running[f].row;
      var before, after := Remaining(c, s), Remaining(c, AfterComplete(c, s, f));
      after == before[i := after[i]] && after[i] < before[i]
  {
  }

  /** Every completed future uses up at least one of the remaining attempts. */
  lemma CompleteUsesAttempt(c: Config, s: State, f: nat)
    requires Completable(c, s, f)
    ensures Budget(c, AfterComplete(c, s, f)) < Budget(c, s)
  {
    CompleteShrinksRow(c, s, f);
    hide AfterComplete, Remaining;
    var i := s.running[f].row;
    SumUpdate(Remaining(c, s), i, Remaining(c, AfterComplete(c, s, f))[i]);
  }

  lemma SubmitKeepsBudget(c: Config, s: State)
    requires s.pending != [] && s.pending[0].row < |s.spot|
    ensures Budget(c, AfterSubmit(s)) == Budget(c, s)
  {
    assert Remaining(c, AfterSubmit(s)) == Remaining(c, s);
  }

  // ----- The scheduler

  class Scheduler {
    const config: Config
    var pending: seq<Attempt>
    var running: map<nat, Attempt>
    var submitted: nat
    var caseRuns: map<nat, nat>
    var sessions: seq<CaseRun>
    var results: map<nat, ResultRow>
    var completion: nat
    ghost var spot: seq<Spot>
    ghost var history: seq<seq<nat>>
    ghost var order: seq<nat>

    ghost function Now(): State
      reads this
    {
      State(pending, running, submitted, caseRuns, sessions, results, completion, spot, history, order)
    }

    constructor (config: Config)
      requires config.limit >= 1
      ensures this.config == config && Now() == Initial(config) && Inv(config, Now())
    {
      this.config := config;
      pending := seq(config.rows, (i: nat) => Attempt(i, 1));
      running, submitted := map[], 0;
      caseRuns := FirstSessions(config.rows);
      sessions := seq(config.rows, (i: nat) => CaseRun(i, Running));
      results, completion := map[], 0;
      spot, history, order := seq(config.rows, (i: nat) => Queued), seq(config.rows, (i: nat) => [i]), [];
      new;
      InvInitially(config);
      hide Inv;
    }

    /** Moves the oldest pending attempt to the pool. */
    method Submit()
      requires pending != [] && pending[0].row < |spot|
      modifies this
      ensures Now() == AfterSubmit(old(Now()))
    {
      var attempt := pending[0];
      pending := pending[1..];
      running := running[submitted := attempt];
      spot := spot[attempt.row := Pooled(submitted)];
      submitted := submitted + 1;
    }

    method RecordFailure(x: nat)
      requires x < |sessions|
      modifies this`sessions
      ensures sessions == old(sessions)[x := old(sessions)[x].(status := Closed(old(sessions)[x].status, Failed))]
    {
      if sessions[x].status.Running? {
        sessions := sessions[x := sessions[x].(status := Failed)];
      }
    }

    method EnsureCompleted(x: nat)
      requires x < |sessions|
      modifies this`sessions
      ensures sessions == old(sessions)[x := old(sessions)[x].(status := Closed(old(sessions)[x].status, Completed))]
    {
      if sessions[x].status.Running? {
        sessions := sessions[x := sessions[x].(status := Completed)];
      }
    }

    /** Gives the row a new session and queues its next attempt. */
    method Retry(attempt: Attempt)
      requires attempt.row < |spot| && attempt.row < |history|
      modifies this
      ensures Now() == AfterRetry(old(Now()), attempt)
    {
      var row, next := attempt.row, |sessions|;
      sessions := sessions + [CaseRun(row, Running)];
      caseRuns := caseRuns[row := next];
      pending := pending + [Attempt(row, attempt.number + 1)];
      history := history[row := history[row] + [next]];
      spot := spot[row := Queued];
    }

    method AddResult(attempt: Attempt, succeeded: bool)
      requires attempt.row < |spot| && attempt.row in caseRuns
      modifies this
      ensures Now() == AfterResult(old(Now()), attempt, succeeded)
    {
      var row := attempt.row;
      results := results[row := ResultRow(row, succeeded, attempt.number, completion, caseRuns[row])];
      completion := completion + 1;
      order := order + [row];
      spot := spot[row := Done];
    }

    /** Pops the future and closes the session its run left open. */
    method Pop(f: nat) returns (attempt: Attempt, succeeded: bool)
      requires Completable(config, Now(), f)
      modifies this
      ensures attempt == old(running)[f] && succeeded == config.outcome(attempt.row, attempt.number).succeeds
      ensures Now() == AfterRun(old(Now()), f, config.outcome(attempt.row, attempt.number))
    {
      attempt := running[f];
      var x := caseRuns[attempt.row];
      running := running - {f};
      var effect := config.outcome(attempt.row, attempt.number);
      succeeded := effect.succeeds;
      sessions := sessions[x := sessions[x].(status := effect.left)];
      if succeeded {
        EnsureCompleted(x);
      } else {
        RecordFailure(x);
      }
    }

    /** Handles one future reported as done: a result, or a retry with a new session. */
    method Complete(f: nat)
      requires Completable(config, Now(), f)
      modifies this
      ensures Now() == AfterComplete(config, old(Now()), f)
    {
      var attempt, succeeded := Pop(f);
      if !succeeded && attempt.number <= config.retries {
        Retry(attempt);
      } else {
        AddResult(attempt, succeeded);
      }
    }

    /** Fills the pool while there is room. */
    method Fill()
      requires Inv(config, Now()) && (pending != [] || running != map[])
      modifies this
      ensures Inv(config, Now()) && Budget(config, Now()) == old(Budget(config, Now()))
      ensures 0 < |running| <= config.limit
    {
      hide Inv, Budget, AfterSubmit;
      LimitHolds(config, Now());
      while pending != [] && |running| < config.limit
        invariant Inv(config, Now()) && Budget(config, Now()) == old(Budget(config, Now()))
        invariant pending != [] || |running| > 0
        decreases |pending|
      {
        ghost var before := Now();
        SubmitKeepsInv(config, before);
        SubmitKeepsBudget(config, before);
        Submit();
        SubmitMoves(config, before);
      }
      LimitHolds(config, Now());
    }

    /** Handles the futures that `wait` reported. */
    method Drain(done: seq<nat>)
      requires Inv(config, Now()) && done != [] && Distinct(done) && forall f :: f in done ==> f in running
      modifies this
      ensures Inv(config, Now()) && Budget(config, Now()) < old(Budget(config, Now()))
    {
      hide Inv, Budget;
      for k := 0 to |done|
        invariant Inv(config, Now())
        invariant forall j :: k <= j < |done| ==> done[j] in running
        invariant if k == 0 then Now() == old(Now()) else Budget(config, Now()) < old(Budget(config, Now()))
      {
        ghost var before := Now();
        CompleteKeepsInv(config, before, done[k]);
        CompleteUsesAttempt(config, before, done[k]);
        PoolAfterComplete(config, before, done[k]);
        hide Completable, AfterComplete;
        Complete(done[k]);
      }
    }

    /** Fills the pool, waits, and handles every future reported as done, until nothing is left. */
    method Run(wait: (nat, set<nat>) -> seq<nat>)
      requires Inv(config, Now()) && IsWait(wait)
      modifies this
      ensures Inv(config, Now()) && pending == [] && running == map[]
    {
      hide Inv, Budget;
      var round := 0;
      while pending != [] || running != map[]
        invariant Inv(config, Now())
        decreases Budget(config, Now())
      {
        Fill();
        assert running.Keys != {};
        var done := wait(round, running.Keys);
        round := round + 1;
        Drain(done);
      }
    }
  }

  lemma LimitHolds(c: Config, s: State)
    requires Inv(c, s)
    ensures 1 <= c.limit && |s.running| <= c.limit
    ensures s.running != map[] <==> |s.running| > 0
  {
    hide QueuePlaced, ResultsDecided, SessionsListed, SessionsSettled, Ordered;
    if |s.running| == 0 {
      assert s.running == map[];
    }
  }

  lemma SubmitMoves(c: Config, s: State)
    requires Inv(c, s) && s.pending != [] && s.pending[0].row < |s.spot|
    ensures |AfterSubmit(s).running| == |s.running| + 1 && |AfterSubmit(s).pending| == |s.pending| - 1
    ensures AfterSubmit(s).running != map[]
  {
    hide QueuePlaced, ResultsDecided, SessionsListed, SessionsSettled, Ordered;
    assert s.submitted !in s.running;
  }

  // ----- The outcome of a whole run

  /** The row reports the first attempt that succeeded, or the last of `retries + 1` failed ones. */
  ghost predicate ReportsDecidingAttempt(c: Config, r: ResultRow, row: nat) {
    && r.inputIndex == row && 1 <= r.attempts <= c.retries + 1
    && (forall j :: 1 <= j < r.attempts ==> !c.outcome(row, j).succeeds)
    && r.succeeded == c.outcome(row, r.attempts).succeeds
    && (!r.succeeded ==> r.attempts == c.retries + 1)
  }

  /** A session that its attempt left running is completed exactly if the attempt succeeded and failed
      exactly if it did not; one that the attempt closed keeps its status. */
  ghost predicate EndedBy(status: Status, e: Effect) {
    if e.left == Running
    then (status == Completed <==> e.succeeds) && (status == Failed <==> !e.succeeds)
    else status == e.left
  }

  /** Attempt `j + 1` of row `i` ran on the session `history[i][j]` and left it in that attempt's ending;
      there are no other attempts and no other sessions, and no session is shared. */
  ghost predicate SessionsAccountedFor(c: Config, results: seq<ResultRow>, sessions: seq<CaseRun>,
                                       history: seq<seq<nat>>) {
    && |history| == |results| == c.rows
    && (forall i :: 0 <= i < c.rows ==>
          && |history[i]| == results[i].attempts && Distinct(history[i]) && history[i] != []
          && results[i].session == history[i][|history[i]| - 1])
    && (forall i, j :: 0 <= i < c.rows && 0 <= j < |history[i]| ==>
          && history[i][j] < |sessions| && sessions[history[i][j]].row == i
          && EndedBy(sessions[history[i][j]].status, c.outcome(i, j + 1)))
    && (forall x :: 0 <= x < |sessions| ==>
          sessions[x].row < c.rows && x in history[sessions[x].row] && sessions[x].status != Running)
  }

  /** The completion indexes are the numbers 0 to n - 1, each used once. */
  ghost predicate CompletionsArePermutation(results: seq<ResultRow>) {
    && (forall i :: 0 <= i < |results| ==> results[i].completionIndex < |results|)
    && (forall i, j :: 0 <= i < j < |results| ==> results[i].completionIndex != results[j].completionIndex)
    && (forall x :: 0 <= x < |results| ==> SomeCompletedAs(results, x))
  }

  /** The rows in the order in which their results were added have the completion indexes 0, 1, and so on. */
  ghost predicate NumberedInOrder(results: seq<ResultRow>, order: seq<nat>) {
    |order| == |results| && forall x :: 0 <= x < |order| ==>
      order[x] < |results| && results[order[x]].completionIndex == x
  }

  lemma OrderIsKept(c: Config, s: State, results: seq<ResultRow>)
    requires Inv(c, s) && s.completion == c.rows && forall i: nat :: i in s.results <==> i < c.rows
    requires |results| == c.rows && forall i :: 0 <= i < c.rows ==> results[i] == s.results[i]
    ensures NumberedInOrder(results, s.order)
  {
    hide PoolPlaced, QueuePlaced, ResultsDecided, SessionsListed, SessionsSettled;
  }

  ghost predicate SomeCompletedAs(results: seq<ResultRow>, x: int) {
    exists i :: 0 <= i < |results| && results[i].completionIndex == x
  }

  function Range(n: nat): (s: set<nat>)
    ensures forall i: nat :: i in s <==> i < n
    ensures |s| == n
  {
    if n == 0 then {} else
      assert n - 1 !in Range(n - 1);
      Range(n - 1) + {n - 1}
  }

  function Elements(s: seq<nat>): (e: set<nat>)
    ensures forall x :: x in e <==> x in s
  {
    if s == [] then {} else
      assert s == s[..|s| - 1] + [s[|s| - 1]];
      Elements(s[..|s| - 1]) + {s[|s| - 1]}
  }

  lemma {:induction false} DistinctSize(s: seq<nat>)
    requires Distinct(s)
    ensures |Elements(s)| == |s|
  {
    if s != [] {
      DistinctSize(s[..|s| - 1]);
      assert s[|s| - 1] !in s[..|s| - 1];
    }
  }

  lemma AllRowsDone(c: Config, s: State)
    requires PoolPlaced(c, s) && QueuePlaced(c, s) && ResultsDecided(c, s) && s.pending == [] && s.running == map[]
    ensures forall i: nat :: i in s.results <==> i < c.rows
  {
    hide Current, Decided;
    forall i | 0 <= i < c.rows ensures i in s.results {
      assert !InQueue(s.pending, i);
    }
  }

  lemma CompletionCount(c: Config, s: State)
    requires Ordered(s) && forall i: nat :: i in s.results <==> i < c.rows
    ensures s.completion == c.rows
  {
    DistinctSize(s.order);
    assert Elements(s.order) == Range(c.rows) by {
      forall i: nat ensures i in Elements(s.order) <==> i in Range(c.rows) {
        if i in s.results {
          assert s.order[s.results[i].completionIndex] == i;
        }
      }
    }
  }

  lemma AllRowsCompleted(c: Config, s: State)
    requires Inv(c, s) && s.pending == [] && s.running == map[]
    ensures (forall i: nat :: i in s.results <==> i < c.rows) && s.completion == c.rows
  {
    hide PoolPlaced, QueuePlaced, ResultsDecided, SessionsListed, SessionsSettled, Ordered;
    AllRowsDone(c, s);
    CompletionCount(c, s);
  }

  lemma FinishedRow(c: Config, s: State, row: nat)
    requires ResultsDecided(c, s) && row in s.results
    ensures row < c.rows && ReportsDecidingAttempt(c, s.results[row], row)
    ensures |s.history| == c.rows && |s.history[row]| == s.results[row].attempts && s.history[row] != []
    ensures s.results[row].session == s.history[row][|s.history[row]| - 1]
  {
    assert Decided(c, s, row);
  }

  lemma FinishedOrder(c: Config, s: State, results: seq<ResultRow>)
    requires Ordered(s) && s.completion == c.rows && forall i: nat :: i in s.results <==> i < c.rows
    requires |results| == c.rows && forall i :: 0 <= i < c.rows ==> results[i] == s.results[i]
    ensures CompletionsArePermutation(results)
  {
    forall x | 0 <= x < c.rows ensures SomeCompletedAs(results, x) {
      assert results[s.order[x]].completionIndex == x;
    }
  }

  lemma AllSettled(c: Config, s: State)
    requires SessionsSettled(c, s) && forall i :: 0 <= i < c.rows ==> i in s.results
    ensures forall i, j :: 0 <= i < c.rows && 0 <= j < |s.history[i]| ==>
      var status := s.sessions[s.history[i][j]].status;
      EndedBy(status, c.outcome(i, j + 1)) && status != Running
  {
  }

  lemma FinishedRun(c: Config, s: State, results: seq<ResultRow>)
    requires Inv(c, s) && s.pending == [] && s.running == map[]
    requires |results| == c.rows && forall i :: 0 <= i < c.rows ==> i in s.results && results[i] == s.results[i]
    ensures forall i :: 0 <= i < c.rows ==> ReportsDecidingAttempt(c, results[i], i)
    ensures CompletionsArePermutation(results)
    ensures SessionsAccountedFor(c, results, s.sessions, s.history)
  {
    AllRowsCompleted(c, s);
    hide PoolPlaced, QueuePlaced, ResultsDecided, SessionsSettled, Ordered;
    hide CompletionsArePermutation, ReportsDecidingAttempt, EndedBy;
    FinishedOrder(c, s, results);
    AllSettled(c, s);
    forall i | 0 <= i < c.rows
      ensures ReportsDecidingAttempt(c, results[i], i) && |s.history[i]| == results[i].attempts && s.history[i] != []
      ensures results[i].session == s.history[i][|s.history[i]| - 1]
    {
      FinishedRow(c, s, i);
    }
  }

  /** The loop of the command: one result per input row in input order, whatever the outcomes of the
      attempts and the choices of `wait`. */
  method RunBenchmark(config: Config, wait: (nat, set<nat>) -> seq<nat>)
    returns (results: seq<ResultRow>, sessions: seq<CaseRun>, hasFailed: bool, ghost history: seq<seq<nat>>,
             ghost order: seq<nat>)
    requires config.limit >= 1 && IsWait(wait)
    ensures |results| == config.rows
    ensures forall i :: 0 <= i < config.rows ==> ReportsDecidingAttempt(config, results[i], i)
    ensures CompletionsArePermutation(results)
    ensures NumberedInOrder(results, order)
    ensures SessionsAccountedFor(config, results, sessions, history)
    ensures hasFailed <==> exists i :: 0 <= i < config.rows && !results[i].succeeded
  {
    hide Inv;
    var scheduler := new Scheduler(config);
    scheduler.Run(wait);
    AllRowsCompleted(config, scheduler.Now());
    results, hasFailed := [], false;
    for i := 0 to config.rows
      invariant |results| == i
      invariant forall j :: 0 <= j < i ==> results[j] == scheduler.results[j]
      invariant hasFailed <==> exists j :: 0 <= j < i && !results[j].succeeded
    {
      results := results + [scheduler.results[i]];
      hasFailed := hasFailed || !scheduler.results[i].succeeded;
    }
    FinishedRun(config, scheduler.Now(), results);
    sessions, history, order := scheduler.sessions, scheduler.history, scheduler.order;
    OrderIsKept(config, scheduler.Now(), results);
  }

  /** When the preflight fails, every row fails at its first attempt, in input order, and every
      session is closed. */
  method FailPreflight(config: Config) returns (results: seq<ResultRow>, sessions: seq<CaseRun>)
    ensures |results| == |sessions| == config.rows
    ensures forall i :: 0 <= i < config.rows ==>
      results[i] == ResultRow(i, false, 1, i, i) && sessions[i] == CaseRun(i, Failed)
    ensures CompletionsArePermutation(results)
  {
    sessions := seq(config.rows, (i: nat) => CaseRun(i, Running));
    results := [];
    for i := 0 to config.rows
      invariant |results| == i && |sessions| == config.rows
      invariant forall j :: 0 <= j < i ==>
        results[j] == ResultRow(j, false, 1, j, j) && sessions[j] == CaseRun(j, Failed)
      invariant forall j :: i <= j < config.rows ==> sessions[j] == CaseRun(j, Running)
    {
      sessions := sessions[i := CaseRun(i, Failed)];
      results := results + [ResultRow(i, false, 1, i, i)];
    }
    forall x | 0 <= x < |results| ensures SomeCompletedAs(results, x) {
      assert results[x].completionIndex == x;
    }
  }
}
