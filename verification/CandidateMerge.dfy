/**
 Merging two observations of one candidate (`merge_resume_candidate_observations`): the better
 observation wins field by field, the earlier one keeps the attribution fields.
 */
module CandidateMerge {
  import opened Basics
  import opened Ordering
  import opened Values
  import opened EvidenceMerge

  /** `earliest` holds the eight attribution fields in model order, `others` every other dumped field. */
  datatype Candidate = Candidate(resumeId: string, earliest: seq<Value>, others: seq<Value>, refs: seq<Ref>)

  const SOURCE_ROUND := 0
  const FIRST_QUERY := 1
  const FIRST_ROUND := 3
  const FIRST_BATCH := 7
  const ATTRIBUTION_FIELDS := 8
  const LAST := 0x7fff_ffff

  /** What the normalisation of a candidate contributes to its rank. */
  datatype Normalized = Normalized(levelRank: nat, structuredLeaves: nat, completeness: int)

  /** The parts the merge treats as given: normalisation and the two payload hashes. */
  datatype Oracle = Oracle(normalize: Candidate -> Normalized, hash: Candidate -> string,
                           attributionHash: seq<Value> -> string)
  {
    ghost predicate CollisionFree() {
      && (forall a, b :: hash(a) == hash(b) ==> a == b)
      && (forall a, b :: attributionHash(a) == attributionHash(b) ==> a == b)
    }
  }

  predicate IsNumberOrNull(v: Value) { v.Null? || v.Num? }

  ghost predicate WellTyped(c: Candidate, others: nat) {
    && |c.earliest| == ATTRIBUTION_FIELDS && |c.others| == others
    && IsNumberOrNull(c.earliest[SOURCE_ROUND]) && IsNumberOrNull(c.earliest[FIRST_ROUND])
    && IsNumberOrNull(c.earliest[FIRST_BATCH])
    && (c.earliest[FIRST_QUERY].Null? || c.earliest[FIRST_QUERY].Text?)
  }

  // ----- Ranks

  datatype Ranking = Ranking(numbers: seq<int>, texts: seq<string>)

  /** Lexicographic comparison of integer tuples. */
  predicate NumbersBefore(a: seq<int>, b: seq<int>) {
    b != [] && (a == [] || a[0] < b[0] || (a[0] == b[0] && NumbersBefore(a[1..], b[1..])))
  }

  predicate TextsBefore(a: seq<string>, b: seq<string>) {
    b != [] && (a == [] || Before(a[0], b[0]) || (a[0] == b[0] && TextsBefore(a[1..], b[1..])))
  }

  predicate RankBefore(a: Ranking, b: Ranking) {
    NumbersBefore(a.numbers, b.numbers) || (a.numbers == b.numbers && TextsBefore(a.texts, b.texts))
  }

  lemma {:induction false} NumbersTotal(a: seq<int>, b: seq<int>)
    ensures a == b || NumbersBefore(a, b) || NumbersBefore(b, a)
    ensures !(NumbersBefore(a, b) && NumbersBefore(b, a)) && !NumbersBefore(a, a)
  {
    if a != [] && b != [] {
      NumbersTotal(a[1..], b[1..]);
      assert a == [a[0]] + a[1..] && b == [b[0]] + b[1..];
    }
    if a != [] {
      NumbersTotal(a[1..], a[1..]);
    }
  }

  lemma {:induction false} TextsTotal(a: seq<string>, b: seq<string>)
    ensures a == b || TextsBefore(a, b) || TextsBefore(b, a)
    ensures !(TextsBefore(a, b) && TextsBefore(b, a)) && !TextsBefore(a, a)
  {
    StringsAreOrdered();
    if a != [] && b != [] {
      TextsTotal(a[1..], b[1..]);
      assert a == [a[0]] + a[1..] && b == [b[0]] + b[1..];
    }
    if a != [] {
      TextsTotal(a[1..], a[1..]);
    }
  }

  /** Of two rankings exactly one is before the other, unless they are equal. */
  lemma RanksTotal(a: Ranking, b: Ranking)
    ensures a == b || RankBefore(a, b) || RankBefore(b, a)
    ensures !(RankBefore(a, b) && RankBefore(b, a)) && (a == b ==> !RankBefore(a, b))
  {
    NumbersTotal(a.numbers, b.numbers);
    TextsTotal(a.texts, b.texts);
  }

  function BestLevel(evidence: seq<Evidence>): nat {
    if evidence == [] then 0
    else var rest := BestLevel(evidence[1..]);
         if LevelRank(evidence[0].level) > rest then LevelRank(evidence[0].level) else rest
  }

  function LatestDate(evidence: seq<Evidence>): string {
    if evidence == [] then ""
    else var rest := LatestDate(evidence[1..]);
         if Before(rest, evidence[0].collectedAt) then evidence[0].collectedAt else rest
  }

  function EvidenceRefs(evidence: seq<Evidence>): set<Ref> {
    if evidence == [] then {} else ElementsOf(evidence[0].refs) + EvidenceRefs(evidence[1..])
  }

  function ObservationRank(o: Oracle, c: Candidate, evidence: seq<Evidence>): Ranking {
    var n := o.normalize(c);
    Ranking([if evidence == [] then n.levelRank else BestLevel(evidence), n.structuredLeaves, n.completeness,
             |EvidenceRefs(evidence) + ElementsOf(c.refs)|],
            [LatestDate(evidence), o.hash(c)])
  }

  /** The best level is the highest of any record, and 0 without one. */
  lemma {:induction false} BestLevelIsHighest(evidence: seq<Evidence>)
    ensures forall e :: e in evidence ==> LevelRank(e.level) <= BestLevel(evidence)
    ensures if evidence == [] then BestLevel(evidence) == 0
            else exists e :: e in evidence && LevelRank(e.level) == BestLevel(evidence)
  {
    if evidence != [] {
      BestLevelIsHighest(evidence[1..]);
      assert evidence == [evidence[0]] + evidence[1..];
      assert evidence[0] in evidence;
    }
  }

  /** The latest date is the last of any record in text order, and empty without one. */
  lemma {:induction false} LatestDateIsLast(evidence: seq<Evidence>)
    ensures forall e :: e in evidence ==> !Before(LatestDate(evidence), e.collectedAt)
    ensures if evidence == [] then LatestDate(evidence) == ""
            else exists e :: e in evidence && e.collectedAt == LatestDate(evidence)
  {
    StringsAreOrdered();
    if evidence != [] {
      var rest := LatestDate(evidence[1..]);
      LatestDateIsLast(evidence[1..]);
      assert evidence == [evidence[0]] + evidence[1..] && evidence[0] in evidence;
      if !Before(rest, evidence[0].collectedAt) && evidence[1..] == [] {
        assert evidence[0].collectedAt == "" == rest;
      }
    }
  }

  /** The verified references are those of any record. */
  lemma {:induction false} EvidenceRefsHas(evidence: seq<Evidence>, r: Ref)
    ensures r in EvidenceRefs(evidence) <==> exists e :: e in evidence && r in e.refs
  {
    if evidence != [] {
      EvidenceRefsHas(evidence[1..], r);
      assert evidence == [evidence[0]] + evidence[1..] && evidence[0] in evidence;
    }
  }

  /** Observations are ranked by level first, then by structured leaves, completeness, the number of
      different references, date, and hash. */
  lemma RankedInOrder(o: Oracle, a: Candidate, ea: seq<Evidence>, b: Candidate, eb: seq<Evidence>)
    ensures var (m, n) := (o.normalize(a), o.normalize(b));
      var la := if ea == [] then m.levelRank else BestLevel(ea);
      var lb := if eb == [] then n.levelRank else BestLevel(eb);
      var (ra, rb) := (|EvidenceRefs(ea) + ElementsOf(a.refs)|, |EvidenceRefs(eb) + ElementsOf(b.refs)|);
      RankBefore(ObservationRank(o, a, ea), ObservationRank(o, b, eb)) <==>
        if la != lb then la < lb
        else if m.structuredLeaves != n.structuredLeaves then m.structuredLeaves < n.structuredLeaves
        else if m.completeness != n.completeness then m.completeness < n.completeness
        else if ra != rb then ra < rb
        else if LatestDate(ea) != LatestDate(eb) then Before(LatestDate(ea), LatestDate(eb))
        else Before(o.hash(a), o.hash(b))
  {
    hide BestLevel, LatestDate, EvidenceRefs, ElementsOf, Before;
    var a4, b4 := ObservationRank(o, a, ea).numbers, ObservationRank(o, b, eb).numbers;
    FourNumbers(a4, b4);
    TwoTexts(ObservationRank(o, a, ea).texts, ObservationRank(o, b, eb).texts);
  }

  lemma FourNumbers(a: seq<int>, b: seq<int>)
    requires |a| == |b| == 4
    ensures NumbersBefore(a, b) <==>
      if a[0] != b[0] then a[0] < b[0] else if a[1] != b[1] then a[1] < b[1]
      else if a[2] != b[2] then a[2] < b[2] else a[3] < b[3]
    ensures a == b <==> a[0] == b[0] && a[1] == b[1] && a[2] == b[2] && a[3] == b[3]
  {
    assert a[1..][1..] == a[2..] && a[2..][1..] == a[3..] && a[3..][1..] == [];
    assert b[1..][1..] == b[2..] && b[2..][1..] == b[3..] && b[3..][1..] == [];
    assert NumbersBefore(a[3..], b[3..]) <==> a[3] < b[3];
    assert NumbersBefore(a[2..], b[2..]) <==> a[2] < b[2] || (a[2] == b[2] && a[3] < b[3]);
  }

  lemma TwoTexts(a: seq<string>, b: seq<string>)
    requires |a| == |b| == 2
    ensures TextsBefore(a, b) <==> Before(a[0], b[0]) || (a[0] == b[0] && Before(a[1], b[1]))
    ensures a[0] == b[0] ==> !Before(a[0], b[0])
  {
    StringsAreOrdered();
    hide Before;
    assert a[1..][1..] == [] == b[1..][1..];
    assert TextsBefore(a[1..], b[1..]) <==> Before(a[1], b[1]);
  }

  function NumberOrLast(v: Value): int {
    if v.Num? then v.n else LAST
  }

  function AttributionRank(o: Oracle, c: Candidate): Ranking
    requires |c.earliest| == ATTRIBUTION_FIELDS
  {
    var query := c.earliest[FIRST_QUERY];
    Ranking([NumberOrLast(c.earliest[SOURCE_ROUND]), NumberOrLast(c.earliest[FIRST_ROUND]),
      NumberOrLast(c.earliest[FIRST_BATCH])],
            [if query.Text? && query.s != "" then query.s else "\U{ffff}", c.resumeId, o.attributionHash(c.earliest)])
  }

  /** Attributions are ranked by the three numbers, then by the first query, where a missing one stands
      behind the printable texts, then by candidate and hash. */
  lemma AttributedInOrder(o: Oracle, a: Candidate, b: Candidate)
    requires |a.earliest| == |b.earliest| == ATTRIBUTION_FIELDS
    ensures var (ta, tb) := (When(a), When(b));
      var qa := if a.earliest[FIRST_QUERY].Text? then a.earliest[FIRST_QUERY].s else "";
      var qb := if b.earliest[FIRST_QUERY].Text? then b.earliest[FIRST_QUERY].s else "";
      RankBefore(AttributionRank(o, a), AttributionRank(o, b)) <==>
        if ta[0] != tb[0] then ta[0] < tb[0] else if ta[1] != tb[1] then ta[1] < tb[1]
        else if ta[2] != tb[2] then ta[2] < tb[2]
        else if OrLast(qa) != OrLast(qb) then Before(OrLast(qa), OrLast(qb))
        else if a.resumeId != b.resumeId then Before(a.resumeId, b.resumeId)
        else Before(o.attributionHash(a.earliest), o.attributionHash(b.earliest))
  {
    var x, y := AttributionRank(o, a), AttributionRank(o, b);
    assert x.numbers == When(a) && y.numbers == When(b);
    ThreeNumbers(x.numbers, y.numbers);
    ThreeTexts(x.texts, y.texts);
    hide Before;
  }

  /** A text, or the mark for a missing one. */
  function OrLast(s: string): (r: string)
    ensures r == s || (s == "" && r == "\U{ffff}")
    ensures r != ""
  {
    if s == "" then "\U{ffff}" else s
  }

  lemma ThreeNumbers(a: seq<int>, b: seq<int>)
    requires |a| == |b| == 3
    ensures NumbersBefore(a, b) <==>
      if a[0] != b[0] then a[0] < b[0] else if a[1] != b[1] then a[1] < b[1] else a[2] < b[2]
    ensures a == b <==> a[0] == b[0] && a[1] == b[1] && a[2] == b[2]
  {
    assert a[1..][1..] == a[2..] && a[2..][1..] == [] && b[1..][1..] == b[2..] && b[2..][1..] == [];
    assert NumbersBefore(a[2..], b[2..]) <==> a[2] < b[2];
    assert NumbersBefore(a[1..], b[1..]) <==> a[1] < b[1] || (a[1] == b[1] && a[2] < b[2]);
  }

  lemma ThreeTexts(a: seq<string>, b: seq<string>)
    requires |a| == |b| == 3
    ensures TextsBefore(a, b) <==>
      if a[0] != b[0] then Before(a[0], b[0]) else if a[1] != b[1] then Before(a[1], b[1]) else Before(a[2], b[2])
  {
    StringsAreOrdered();
    hide Before;
    assert a[1..][1..] == a[2..] && a[2..][1..] == [] && b[1..][1..] == b[2..] && b[2..][1..] == [];
    assert TextsBefore(a[2..], b[2..]) <==> Before(a[2], b[2]);
    assert TextsBefore(a[1..], b[1..]) <==> Before(a[1], b[1]) || (a[1] == b[1] && Before(a[2], b[2]));
  }

  // ----- The merge

  function KeyHashes(evidence: seq<Evidence>, source: string, provider: string): set<string> {
    set e | e in evidence && e.who.source == source && e.who.provider == provider
      && e.who.candidateKeyHash != "" :: e.who.candidateKeyHash
  }

  /** Some provider is known on both sides under different keys only. */
  predicate ProviderClash(left: seq<Evidence>, right: seq<Evidence>) {
    exists e :: e in left + right &&
      var l, r := KeyHashes(left, e.who.source, e.who.provider), KeyHashes(right, e.who.source, e.who.provider);
      l != {} && r != {} && l !! r
  }

  /** Both sides know the provider, but no key of one side is a key of the other. */
  ghost predicate KeysDiffer(left: seq<Evidence>, right: seq<Evidence>, source: string, provider: string) {
    && (exists d :: d in left && Keyed(d, source, provider))
    && (exists e :: e in right && Keyed(e, source, provider))
    && (forall d, e :: d in left && e in right && Keyed(d, source, provider) && Keyed(e, source, provider) ==>
          d.who.candidateKeyHash != e.who.candidateKeyHash)
  }

  predicate Keyed(e: Evidence, source: string, provider: string) {
    e.who.source == source && e.who.provider == provider && e.who.candidateKeyHash != ""
  }

  /** Two observations are refused exactly for different candidates and for a provider that both sides
      know under different keys only. */
  lemma MergeRefusesExactly(o: Oracle, left: Candidate, right: Candidate, leftEvidence: seq<Evidence>,
                            rightEvidence: seq<Evidence>)
    requires |left.earliest| == |right.earliest| == ATTRIBUTION_FIELDS
    ensures var outcome := MergeCandidates(o, left, right, leftEvidence, rightEvidence);
      && (outcome == ResumeMismatch <==> left.resumeId != right.resumeId)
      && (outcome == ProviderMismatch <==>
            left.resumeId == right.resumeId && exists s, p :: KeysDiffer(leftEvidence, rightEvidence, s, p))
  {
    hide ObservationRank, AttributionRank, RankBefore, PreferAll, RefUnion;
    ClashExactly(leftEvidence, rightEvidence);
  }

  lemma ClashExactly(left: seq<Evidence>, right: seq<Evidence>)
    ensures ProviderClash(left, right) <==> exists s, p :: KeysDiffer(left, right, s, p)
  {
    forall s, p
      ensures KeysDiffer(left, right, s, p) <==>
        var l, r := KeyHashes(left, s, p), KeyHashes(right, s, p);
        l != {} && r != {} && l !! r
    {
      KeysDifferMeans(left, right, s, p);
    }
    if ProviderClash(left, right) {
      var e :| e in left + right &&
        var l, r := KeyHashes(left, e.who.source, e.who.provider), KeyHashes(right, e.who.source, e.who.provider);
        l != {} && r != {} && l !! r;
      assert KeysDiffer(left, right, e.who.source, e.who.provider);
    }
    if s, p :| KeysDiffer(left, right, s, p) {
      var d :| d in left && Keyed(d, s, p);
      assert d in left + right;
    }
  }

  lemma KeysDifferMeans(left: seq<Evidence>, right: seq<Evidence>, s: string, p: string)
    ensures KeysDiffer(left, right, s, p) <==>
      var l, r := KeyHashes(left, s, p), KeyHashes(right, s, p);
      l != {} && r != {} && l !! r
  {
    KeyHashesHas(left, s, p);
    KeyHashesHas(right, s, p);
    hide KeyHashes, Keyed;
    var l, r := KeyHashes(left, s, p), KeyHashes(right, s, p);
    if h :| h in l && h in r {
      var d :| d in left && Keyed(d, s, p) && d.who.candidateKeyHash == h;
      var e :| e in right && Keyed(e, s, p) && e.who.candidateKeyHash == h;
    }
  }

  lemma KeyHashesHas(evidence: seq<Evidence>, s: string, p: string)
    ensures forall e :: e in evidence && Keyed(e, s, p) ==> e.who.candidateKeyHash in KeyHashes(evidence, s, p)
    ensures forall h :: h in KeyHashes(evidence, s, p) ==>
      exists e :: e in evidence && Keyed(e, s, p) && e.who.candidateKeyHash == h
    ensures KeyHashes(evidence, s, p) == {} <==> forall e :: e in evidence ==> !Keyed(e, s, p)
  {
    if KeyHashes(evidence, s, p) != {} {
      var h :| h in KeyHashes(evidence, s, p);
    }
  }

  datatype Outcome = ResumeMismatch | ProviderMismatch | Merged(candidate: Candidate, normalized: Normalized)

  function Combine(o: Oracle, winner: Candidate, loser: Candidate, first: Candidate, later: Candidate,
                   left: Candidate, right: Candidate): Candidate {
    Candidate(winner.resumeId, PreferAll(first.earliest, later.earliest), PreferAll(winner.others, loser.others),
              RefUnion(left.refs, right.refs))
  }

  function MergeCandidates(o: Oracle, left: Candidate, right: Candidate, leftEvidence: seq<Evidence>,
                           rightEvidence: seq<Evidence>): Outcome
    requires |left.earliest| == |right.earliest| == ATTRIBUTION_FIELDS
  {
    if left.resumeId != right.resumeId then ResumeMismatch
    else if ProviderClash(leftEvidence, rightEvidence) then ProviderMismatch
    else
      var leftWins := !RankBefore(ObservationRank(o, left, leftEvidence), ObservationRank(o, right, rightEvidence));
      var leftFirst := !RankBefore(AttributionRank(o, right), AttributionRank(o, left));
      var (winner, loser) := if leftWins then (left, right) else (right, left);
      var (first, later) := if leftFirst then (left, right) else (right, left);
      var merged := Combine(o, winner, loser, first, later, left, right);
      Merged(merged, o.normalize(merged))
  }

  // ----- Properties

  lemma ClashSymmetric(left: seq<Evidence>, right: seq<Evidence>)
    ensures ProviderClash(left, right) ==> ProviderClash(right, left)
  {
    if ProviderClash(left, right) {
      var e :| e in left + right &&
        var l, r := KeyHashes(left, e.who.source, e.who.provider), KeyHashes(right, e.who.source, e.who.provider);
        l != {} && r != {} && l !! r;
      assert e in right + left;
    }
  }

  lemma UnionSymmetric(a: seq<Ref>, b: seq<Ref>)
    ensures RefUnion(a, b) == RefUnion(b, a)
  {
    assert ElementsOf(a) + ElementsOf(b) == ElementsOf(b) + ElementsOf(a);
  }

  /** Swapping the sides together with their evidence changes nothing. */
  lemma MergeSymmetric(o: Oracle, left: Candidate, right: Candidate, leftEvidence: seq<Evidence>,
                       rightEvidence: seq<Evidence>)
    requires o.CollisionFree() && |left.earliest| == |right.earliest| == ATTRIBUTION_FIELDS
    ensures MergeCandidates(o, left, right, leftEvidence, rightEvidence) ==
      MergeCandidates(o, right, left, rightEvidence, leftEvidence)
  {
    ClashSymmetric(leftEvidence, rightEvidence);
    ClashSymmetric(rightEvidence, leftEvidence);
    UnionSymmetric(left.refs, right.refs);
    hide RankBefore, ProviderClash, RefUnion, PreferAll;
    var l, r := ObservationRank(o, left, leftEvidence), ObservationRank(o, right, rightEvidence);
    RanksTotal(l, r);
    assert l == r ==> l.texts[1] == r.texts[1];
    var la, ra := AttributionRank(o, left), AttributionRank(o, right);
    RanksTotal(la, ra);
    assert la == ra ==> la.texts[2] == ra.texts[2];
    hide ObservationRank, AttributionRank;
  }

  /** A merged field is empty exactly when it is empty on both sides. */
  lemma MergedFieldEmptyOnlyIfBoth(o: Oracle, left: Candidate, right: Candidate, leftEvidence: seq<Evidence>,
                                   rightEvidence: seq<Evidence>, n: nat, i: nat)
    requires WellTyped(left, n) && WellTyped(right, n)
    requires MergeCandidates(o, left, right, leftEvidence, rightEvidence).Merged?
    ensures var m := MergeCandidates(o, left, right, leftEvidence, rightEvidence).candidate;
      && |m.earliest| == ATTRIBUTION_FIELDS && |m.others| == n
      && (i < ATTRIBUTION_FIELDS ==>
            (IsEmpty(m.earliest[i]) <==> IsEmpty(left.earliest[i]) && IsEmpty(right.earliest[i])))
      && (i < n ==> (IsEmpty(m.others[i]) <==> IsEmpty(left.others[i]) && IsEmpty(right.others[i])))
      && (forall r :: r in m.refs <==> r in left.refs || r in right.refs)
  {
    hide RankBefore, ObservationRank, AttributionRank, ProviderClash, IsEmpty;
    if i < ATTRIBUTION_FIELDS {
      PreferAllEmptiness(left.earliest, right.earliest, i);
      PreferAllEmptiness(right.earliest, left.earliest, i);
    }
    if i < n {
      PreferAllEmptiness(left.others, right.others, i);
      PreferAllEmptiness(right.others, left.others, i);
    }
    hide PreferAll, RefUnion;
  }

  /** Every field of the outcome: the attribution of the earlier observation filled up from the later one,
      every other field of the better observation filled up from the other one. */
  lemma FieldsCombined(o: Oracle, left: Candidate, right: Candidate, leftEvidence: seq<Evidence>,
                       rightEvidence: seq<Evidence>, n: nat)
    requires WellTyped(left, n) && WellTyped(right, n)
    requires MergeCandidates(o, left, right, leftEvidence, rightEvidence).Merged?
    ensures var outcome := MergeCandidates(o, left, right, leftEvidence, rightEvidence);
      var m := outcome.candidate;
      var (winner, loser) :=
        if RankBefore(ObservationRank(o, left, leftEvidence), ObservationRank(o, right, rightEvidence))
        then (right, left) else (left, right);
      var (first, later) :=
        if RankBefore(AttributionRank(o, right), AttributionRank(o, left)) then (right, left) else (left, right);
      && outcome.normalized == o.normalize(m) && m.resumeId == left.resumeId == right.resumeId
      && |m.earliest| == ATTRIBUTION_FIELDS && |m.others| == n
      && (forall i :: 0 <= i < ATTRIBUTION_FIELDS ==>
            m.earliest[i] == PreferRicher(first.earliest[i], later.earliest[i]))
      && (forall i :: 0 <= i < n ==> m.others[i] == PreferRicher(winner.others[i], loser.others[i]))
  {
    hide RankBefore, ObservationRank, AttributionRank, ProviderClash, RefUnion, PreferRicher;
  }

  /** The (source round, first round, first batch) triple with missing numbers last. */
  function When(c: Candidate): seq<int>
    requires |c.earliest| == ATTRIBUTION_FIELDS
  {
    [NumberOrLast(c.earliest[SOURCE_ROUND]), NumberOrLast(c.earliest[FIRST_ROUND]),
      NumberOrLast(c.earliest[FIRST_BATCH])]
  }

  /** The numbers stay below the value that stands for a missing one. */
  ghost predicate InRange(c: Candidate)
    requires |c.earliest| == ATTRIBUTION_FIELDS
  {
    When(c)[0] <= LAST && When(c)[1] <= LAST && When(c)[2] <= LAST
  }

  predicate NoLater(a: seq<int>, b: seq<int>) {
    a == b || NumbersBefore(a, b)
  }

  lemma NoLaterTriples(a: seq<int>, b: seq<int>)
    requires |a| == |b| == 3
    ensures NoLater(a, b) <==> a[0] < b[0] || (a[0] == b[0] && (a[1] < b[1] || (a[1] == b[1] && a[2] <= b[2])))
  {
    assert a[1..][1..] == [a[2]] && b[1..][1..] == [b[2]] && a[1..][1..][1..] == [] == b[1..][1..][1..];
    assert NumbersBefore(a[1..][1..], b[1..][1..]) <==> a[2] < b[2];
    assert NumbersBefore(a[1..], b[1..]) <==> a[1] < b[1] || (a[1] == b[1] && a[2] < b[2]);
    assert a == [a[0], a[1], a[2]] && b == [b[0], b[1], b[2]];
  }

  /** The later side supplies a number where the earlier side has none, other than the mark itself. */
  predicate Fills(first: Candidate, later: Candidate, i: nat)
    requires |first.earliest| == |later.earliest| == ATTRIBUTION_FIELDS && i < ATTRIBUTION_FIELDS
  {
    first.earliest[i].Null? && later.earliest[i].Num? && later.earliest[i].n != LAST
  }

  /** The first number that the later side supplies is below the mark that stands for a missing one. */
  predicate FirstFillIsSmall(first: Candidate, later: Candidate)
    requires |first.earliest| == |later.earliest| == ATTRIBUTION_FIELDS
  {
    if Fills(first, later, SOURCE_ROUND) then later.earliest[SOURCE_ROUND].n < LAST
    else if Fills(first, later, FIRST_ROUND) then later.earliest[FIRST_ROUND].n < LAST
    else Fills(first, later, FIRST_BATCH) ==> later.earliest[FIRST_BATCH].n < LAST
  }

  lemma EarliestFirst(o: Oracle, first: Candidate, later: Candidate, n: nat)
    requires WellTyped(first, n) && WellTyped(later, n)
    requires !RankBefore(AttributionRank(o, later), AttributionRank(o, first))
    ensures var merged := Candidate(first.resumeId, PreferAll(first.earliest, later.earliest), [], []);
      && |merged.earliest| == ATTRIBUTION_FIELDS
      && (NoLater(When(merged), When(first)) && NoLater(When(merged), When(later)) <==> FirstFillIsSmall(first, later))
  {
    var merged := Candidate(first.resumeId, PreferAll(first.earliest, later.earliest), [], []);
    RanksTotal(AttributionRank(o, first), AttributionRank(o, later));
    NumbersTotal(When(first), When(later));
    NoLaterTriples(When(first), When(later));
    NoLaterTriples(When(merged), When(first));
    NoLaterTriples(When(merged), When(later));
  }

  /** The merged attribution is no later than either side's exactly when the first number the earlier
      side lacks and the other one supplies is below the mark for a missing number. */
  lemma AttributionNoLaterExactly(o: Oracle, left: Candidate, right: Candidate, leftEvidence: seq<Evidence>,
                                  rightEvidence: seq<Evidence>, n: nat)
    requires WellTyped(left, n) && WellTyped(right, n)
    requires MergeCandidates(o, left, right, leftEvidence, rightEvidence).Merged?
    ensures var m := MergeCandidates(o, left, right, leftEvidence, rightEvidence).candidate;
      var (first, later) :=
        if RankBefore(AttributionRank(o, right), AttributionRank(o, left)) then (right, left) else (left, right);
      && |m.earliest| == ATTRIBUTION_FIELDS
      && (NoLater(When(m), When(left)) && NoLater(When(m), When(right)) <==> FirstFillIsSmall(first, later))
  {
    hide ObservationRank, ProviderClash, RefUnion, PreferAll, NoLater, FirstFillIsSmall;
    RanksTotal(AttributionRank(o, left), AttributionRank(o, right));
    hide RankBefore, AttributionRank;
    if RankBefore(AttributionRank(o, right), AttributionRank(o, left)) {
      EarliestFirst(o, right, left, n);
    } else {
      EarliestFirst(o, left, right, n);
    }
  }

  /** So it is never later for numbers up to that mark. */
  lemma MergedAttributionNoLater(o: Oracle, left: Candidate, right: Candidate, leftEvidence: seq<Evidence>,
                                 rightEvidence: seq<Evidence>, n: nat)
    requires WellTyped(left, n) && WellTyped(right, n) && InRange(left) && InRange(right)
    requires MergeCandidates(o, left, right, leftEvidence, rightEvidence).Merged?
    ensures var m := MergeCandidates(o, left, right, leftEvidence, rightEvidence).candidate;
      |m.earliest| == ATTRIBUTION_FIELDS && NoLater(When(m), When(left)) && NoLater(When(m), When(right))
  {
    AttributionNoLaterExactly(o, left, right, leftEvidence, rightEvidence, n);
    hide MergeCandidates, RankBefore, AttributionRank, NoLater;
  }

  /** Beyond that mark it can be later: a missing round then outranks a present one. */
  lemma OutOfRangeAttributionCanBeLater(o: Oracle, left: Candidate, right: Candidate)
    requires WellTyped(left, 0) && WellTyped(right, 0) && left.resumeId == right.resumeId
    requires left.earliest[SOURCE_ROUND] == Num(LAST + 1) && left.earliest[FIRST_ROUND] == Num(1)
    requires right.earliest[SOURCE_ROUND] == Null && right.earliest[FIRST_ROUND] == Num(2)
    ensures MergeCandidates(o, left, right, [], []).Merged?
    ensures !NoLater(When(MergeCandidates(o, left, right, [], []).candidate), When(left))
  {
    hide ObservationRank;
    assert RankBefore(AttributionRank(o, right), AttributionRank(o, left));
    var m := MergeCandidates(o, left, right, [], []).candidate;
    assert |m.earliest| == ATTRIBUTION_FIELDS;
    NoLaterTriples(When(m), When(left));
  }

  /** Known content of the better observation is never downgraded, at any depth of any field. */
  lemma WinnerContentStays(o: Oracle, left: Candidate, right: Candidate, leftEvidence: seq<Evidence>,
                           rightEvidence: seq<Evidence>,
                           n: nat, i: nat, path: seq<string>)
    requires WellTyped(left, n) && WellTyped(right, n) && i < n
    requires MergeCandidates(o, left, right, leftEvidence, rightEvidence).Merged?
    ensures var m := MergeCandidates(o, left, right, leftEvidence, rightEvidence).candidate;
      var winner :=
        if RankBefore(ObservationRank(o, left, leftEvidence), ObservationRank(o, right, rightEvidence))
        then right else left;
      && |m.others| == n
      && (!IsEmpty(Find(winner.others[i], path)) && !Find(winner.others[i], path).Dict? ==>
            Find(m.others[i], path) == Find(winner.others[i], path))
      && LeafCount(m.others[i]) >= LeafCount(winner.others[i])
  {
    hide RankBefore, ObservationRank, AttributionRank, ProviderClash, RefUnion, IsEmpty, PreferRicher, Find, LeafCount;
    KnownContentStays(left.others[i], right.others[i], path);
    KnownContentStays(right.others[i], left.others[i], path);
    PreferredLeavesStay(left.others[i], right.others[i]);
    PreferredLeavesStay(right.others[i], left.others[i]);
  }
}
