/**
 Folding observations of one candidate: the monotone upsert of evidence records and the merge of
 two candidate observations.
 */
module EvidenceMerge {
  import opened Basics
  import opened Ordering
  import opened Values

  // ----- Evidence records

  datatype Level = Card | Detail | Final

  function LevelRank(l: Level): nat {
    match l case Card => 1 case Detail => 2 case Final => 3
  }

  datatype Ref = Ref(kind: string, text: string, url: string)

  /** The fields two observations of one evidence record must agree on. */
  datatype Identity = Identity(evidenceId: string, source: string, provider: string, resumeId: string,
                               candidateKeyHash: string)

  /** One evidence record; `optional` are its nine optional scalar fields in model order. */
  datatype Evidence = Evidence(who: Identity, level: Level, hashes: seq<string>, optional: seq<Value>,
                               collectedAt: string,
                               codes: seq<string>, refs: seq<Ref>)

  const OPTIONAL_FIELDS := 9

  /** The record is complete and its references have no empty part, as its model guarantees. */
  ghost predicate Valid(e: Evidence) {
    && |e.optional| == OPTIONAL_FIELDS
    && (forall v :: v in e.optional ==> v.Null? || v.Text? || v.Num?)
    && forall r :: r in e.refs ==> r.kind != "" && r.text != "" && r.url != ""
  }

  /** No tuple of the record repeats an element. */
  ghost predicate DuplicateFree(e: Evidence) {
    Distinct(e.hashes) && Distinct(e.codes) && Distinct(e.refs)
  }

  function TextLeaf(s: string): nat {
    if s == "" then 0 else 1
  }

  function TextLeaves(s: seq<string>): nat {
    if s == [] then 0 else TextLeaves(s[..|s| - 1]) + TextLeaf(s[|s| - 1])
  }

  function RefLeaves(s: seq<Ref>): nat {
    if s == [] then 0
    else RefLeaves(s[..|s| - 1]) + TextLeaf(s[|s| - 1].kind) + TextLeaf(s[|s| - 1].text) + TextLeaf(s[|s| - 1].url)
  }

  function ValueLeaves(s: seq<Value>): nat {
    if s == [] then 0 else ValueLeaves(s[..|s| - 1]) + LeafCount(s[|s| - 1])
  }

  /** The number of non-empty leaves of the dumped record. */
  function EvidenceLeaves(e: Evidence): nat {
    TextLeaf(e.who.evidenceId) + TextLeaf(e.who.source) + TextLeaf(e.who.provider) + TextLeaf(e.who.resumeId)
    + TextLeaf(e.who.candidateKeyHash) + 1 + TextLeaves(e.hashes) + ValueLeaves(e.optional) + TextLeaf(e.collectedAt)
    + TextLeaves(e.codes) + RefLeaves(e.refs)
  }

  /** (level, leaves, collected_at) in lexicographic order: `a` is no better than `b`. */
  predicate QualityAtMost(a: Evidence, b: Evidence) {
    || LevelRank(a.level) < LevelRank(b.level)
    || (a.level == b.level &&
         (|| EvidenceLeaves(a) < EvidenceLeaves(b)
          || (EvidenceLeaves(a) == EvidenceLeaves(b)
            && (a.collectedAt == b.collectedAt || Before(a.collectedAt, b.collectedAt)))))
  }

  /** The rank tuple of the left record is at least that of the right one. */
  predicate RankAtLeast(hash: Evidence -> string, a: Evidence, b: Evidence) {
    || LevelRank(a.level) > LevelRank(b.level)
    || (a.level == b.level &&
         (|| EvidenceLeaves(a) > EvidenceLeaves(b)
          || (EvidenceLeaves(a) == EvidenceLeaves(b) &&
               (|| Before(b.collectedAt, a.collectedAt)
                || (a.collectedAt == b.collectedAt && !Before(hash(a), hash(b)))))))
  }

  predicate RefBefore(a: Ref, b: Ref) {
    || Before(a.kind, b.kind)
    || (a.kind == b.kind && (Before(a.text, b.text) || (a.text == b.text && Before(a.url, b.url))))
  }

  /** References are ordered by kind, then by text, then by address. */
  lemma RefBeforeExactly(a: Ref, b: Ref)
    ensures RefBefore(a, b) <==>
      if a.kind != b.kind then Before(a.kind, b.kind)
      else if a.text != b.text then Before(a.text, b.text) else Before(a.url, b.url)
  {
    BeforeIrreflexive(a.kind);
    BeforeIrreflexive(a.text);
  }

  lemma RefsAreOrdered()
    ensures TotalOrder(RefBefore)
  {
    StringsAreOrdered();
  }

  function ElementsOf<T(!new)>(s: seq<T>): (e: set<T>)
    ensures forall x :: x in e <==> x in s
  {
    set x | x in s
  }

  function TextUnion(a: seq<string>, b: seq<string>): (r: seq<string>)
    ensures forall x :: x in r <==> x in a || x in b
    ensures Ascending(r, Before) && Distinct(r)
  {
    StringsAreOrdered();
    AscendingIsDistinct(SortedStrings(ElementsOf(a) + ElementsOf(b)), Before);
    SortedStrings(ElementsOf(a) + ElementsOf(b))
  }

  function RefUnion(a: seq<Ref>, b: seq<Ref>): (r: seq<Ref>)
    ensures forall x :: x in r <==> x in a || x in b
    ensures Ascending(r, RefBefore) && Distinct(r)
  {
    RefsAreOrdered();
    AscendingIsDistinct(SortedBy(ElementsOf(a) + ElementsOf(b), RefBefore), RefBefore);
    SortedBy(ElementsOf(a) + ElementsOf(b), RefBefore)
  }

  function PreferText(p: string, f: string): string {
    if p == "" && f != "" then f else p
  }

  function PreferAll(p: seq<Value>, f: seq<Value>): seq<Value> {
    seq(|p|, i requires 0 <= i < |p| => if i < |f| then PreferRicher(p[i], f[i]) else p[i])
  }

  /** The upsert, with the better record first. */
  function Upsert(winner: Evidence, loser: Evidence, left: Evidence, right: Evidence): Evidence {
    Evidence(winner.who, winner.level, TextUnion(left.hashes, right.hashes), PreferAll(winner.optional, loser.optional),
             PreferText(winner.collectedAt, loser.collectedAt), TextUnion(left.codes, right.codes),
               RefUnion(left.refs, right.refs))
  }

  /** The merge of two records; none when their identities differ. */
  function MergeEvidence(hash: Evidence -> string, left: Evidence, right: Evidence): Option<Evidence> {
    if left.who != right.who then None
    else if RankAtLeast(hash, left, right) then Some(Upsert(left, right, left, right))
    else Some(Upsert(right, left, left, right))
  }

  // ----- Counting leaves

  function NonEmptyTexts(s: seq<string>): (e: set<string>)
    ensures forall x :: x in e <==> x in s && x != ""
  {
    set x | x in s && x != ""
  }

  /** How many non-empty texts stand behind an equal one. */
  function TextRepeats(s: seq<string>): nat {
    if s == [] then 0
    else
      var front, last := s[..|s| - 1], s[|s| - 1];
      TextRepeats(front) + if last != "" && last in front then 1 else 0
  }

  /** How many references stand behind an equal one. */
  function RefRepeats(s: seq<Ref>): nat {
    if s == [] then 0
    else
      var front, last := s[..|s| - 1], s[|s| - 1];
      RefRepeats(front) + if last in front then 1 else 0
  }

  lemma {:induction false} TextLeavesAre(s: seq<string>)
    ensures TextLeaves(s) == |NonEmptyTexts(s)| + TextRepeats(s)
  {
    if s == [] {
      assert NonEmptyTexts(s) == {};
    } else {
      var front, last := s[..|s| - 1], s[|s| - 1];
      TextLeavesAre(front);
      assert s == front + [last];
      if last == "" || last in front {
        assert NonEmptyTexts(s) == NonEmptyTexts(front);
      } else {
        assert NonEmptyTexts(s) == NonEmptyTexts(front) + {last};
      }
    }
  }

  lemma {:induction false} RefLeavesAre(s: seq<Ref>)
    requires forall r :: r in s ==> r.kind != "" && r.text != "" && r.url != ""
    ensures RefLeaves(s) == 3 * (|ElementsOf(s)| + RefRepeats(s))
  {
    if s == [] {
      assert ElementsOf(s) == {};
    } else {
      var front, last := s[..|s| - 1], s[|s| - 1];
      RefLeavesAre(front);
      assert s == front + [last] && last in s;
      if last in front {
        assert ElementsOf(s) == ElementsOf(front);
      } else {
        assert ElementsOf(s) == ElementsOf(front) + {last};
      }
    }
  }

  lemma {:induction false} TextsRepeatNothing(s: seq<string>)
    ensures TextRepeats(s) == 0 <==> forall i, j :: 0 <= i < j < |s| && s[i] == s[j] ==> s[i] == ""
  {
    if s != [] {
      var front, last := s[..|s| - 1], s[|s| - 1];
      TextsRepeatNothing(front);
      if last in front {
        var i :| 0 <= i < |front| && front[i] == last;
        assert s[i] == s[|s| - 1];
      }
    }
  }

  lemma {:induction false} RefsRepeatNothing(s: seq<Ref>)
    ensures RefRepeats(s) == 0 <==> Distinct(s)
  {
    if s != [] {
      var front, last := s[..|s| - 1], s[|s| - 1];
      RefsRepeatNothing(front);
      if last in front {
        var i :| 0 <= i < |front| && front[i] == last;
        assert s[i] == s[|s| - 1];
      }
    }
  }

  lemma UnionSize<T>(a: set<T>, b: set<T>)
    ensures |a + b| == |a| + |b - a|
  {
    assert a + b == a + (b - a);
  }

  /** A union of two tuples has the leaves of the first without its repetitions, and what the second adds. */
  lemma TextUnionLeaves(w: seq<string>, l: seq<string>, m: seq<string>)
    requires Distinct(m) && forall x :: x in m <==> x in w || x in l
    ensures TextLeaves(m) == TextLeaves(w) - TextRepeats(w) + |NonEmptyTexts(l) - NonEmptyTexts(w)|
  {
    TextLeavesAre(m);
    TextLeavesAre(w);
    TextsRepeatNothing(m);
    assert NonEmptyTexts(m) == NonEmptyTexts(w) + NonEmptyTexts(l);
    UnionSize(NonEmptyTexts(w), NonEmptyTexts(l));
  }

  lemma RefUnionLeaves(w: seq<Ref>, l: seq<Ref>, m: seq<Ref>)
    requires Distinct(m) && forall x :: x in m <==> x in w || x in l
    requires forall r :: r in m ==> r.kind != "" && r.text != "" && r.url != ""
    ensures RefLeaves(m) == RefLeaves(w) - 3 * RefRepeats(w) + 3 * |ElementsOf(l) - ElementsOf(w)|
  {
    RefLeavesAre(m);
    RefLeavesAre(w);
    RefsRepeatNothing(m);
    assert ElementsOf(m) == ElementsOf(w) + ElementsOf(l);
    UnionSize(ElementsOf(w), ElementsOf(l));
  }

  /** How many values only the second side fills. */
  function Filled(w: seq<Value>, l: seq<Value>): nat
    requires |w| == |l|
  {
    if w == [] then 0
    else
      var n := |w| - 1;
      Filled(w[..n], l[..n]) + if IsEmpty(w[n]) && !IsEmpty(l[n]) then 1 else 0
  }

  lemma ScalarLeaves(w: Value, l: Value)
    requires (w.Null? || w.Text? || w.Num?) && (l.Null? || l.Text? || l.Num?)
    ensures LeafCount(PreferRicher(w, l)) == LeafCount(w) + if IsEmpty(w) && !IsEmpty(l) then 1 else 0
  {
  }

  lemma {:induction false} PreferredLeaves(w: seq<Value>, l: seq<Value>)
    requires |w| == |l|
    requires forall v :: v in w || v in l ==> v.Null? || v.Text? || v.Num?
    ensures ValueLeaves(PreferAll(w, l)) == ValueLeaves(w) + Filled(w, l)
  {
    hide LeafCount, IsEmpty, PreferRicher;
    if w != [] {
      var n := |w| - 1;
      assert w[n] in w && l[n] in l;
      ScalarLeaves(w[n], l[n]);
      assert forall v :: v in w[..n] || v in l[..n] ==> v in w || v in l;
      PreferredLeaves(w[..n], l[..n]);
      assert PreferAll(w, l)[..n] == PreferAll(w[..n], l[..n]);
    }
  }

  // ----- Quality never drops

  lemma QualityTransitive(a: Evidence, b: Evidence, c: Evidence)
    requires QualityAtMost(a, b) && QualityAtMost(b, c)
    ensures QualityAtMost(a, c)
  {
    BeforeTransitive(a.collectedAt, b.collectedAt, c.collectedAt);
  }

  lemma RankIsQuality(hash: Evidence -> string, a: Evidence, b: Evidence)
    ensures RankAtLeast(hash, a, b) ==> QualityAtMost(b, a)
    ensures !RankAtLeast(hash, a, b) ==> QualityAtMost(a, b)
  {
    BeforeTotal(a.collectedAt, b.collectedAt);
  }

  lemma PreferAllScalars(p: seq<Value>, f: seq<Value>)
    requires |p| == |f|
    requires forall v :: v in p || v in f ==> v.Null? || v.Text? || v.Num?
    ensures forall v :: v in PreferAll(p, f) ==> v.Null? || v.Text? || v.Num?
  {
    forall v | v in PreferAll(p, f) ensures v.Null? || v.Text? || v.Num? {
      var i :| 0 <= i < |p| && PreferAll(p, f)[i] == v;
      assert p[i] in p && f[i] in f;
    }
  }

  lemma UpsertValid(winner: Evidence, loser: Evidence, left: Evidence, right: Evidence)
    requires Valid(left) && Valid(right)
    requires (winner == left && loser == right) || (winner == right && loser == left)
    ensures Valid(Upsert(winner, loser, left, right)) && DuplicateFree(Upsert(winner, loser, left, right))
  {
    PreferAllScalars(winner.optional, loser.optional);
    hide PreferAll, TextUnion, RefUnion, PreferText, Distinct;
  }

  /** The leaves of a record that a union of tuples drops: repeated texts, and three per repeated reference. */
  function Repeats(e: Evidence): nat {
    TextRepeats(e.hashes) + TextRepeats(e.codes) + 3 * RefRepeats(e.refs)
  }

  /** The leaves the other record brings: texts and references that `w` lacks, fields that it leaves
      empty, and a date if it has none. */
  function Gain(w: Evidence, l: Evidence): nat
    requires |w.optional| == |l.optional|
  {
    |NonEmptyTexts(l.hashes) - NonEmptyTexts(w.hashes)| + |NonEmptyTexts(l.codes) - NonEmptyTexts(w.codes)|
    + 3 * |ElementsOf(l.refs) - ElementsOf(w.refs)| + Filled(w.optional, l.optional)
    + if w.collectedAt == "" && l.collectedAt != "" then 1 else 0
  }

  /** No tuple repeats a non-empty text, and no reference is repeated. */
  ghost predicate RepeatFree(e: Evidence) {
    && (forall i, j :: 0 <= i < j < |e.hashes| && e.hashes[i] == e.hashes[j] ==> e.hashes[i] == "")
    && (forall i, j :: 0 <= i < j < |e.codes| && e.codes[i] == e.codes[j] ==> e.codes[i] == "")
    && Distinct(e.refs)
  }

  lemma RepeatFreeExactly(e: Evidence)
    ensures RepeatFree(e) <==> Repeats(e) == 0
    ensures DuplicateFree(e) ==> RepeatFree(e)
  {
    TextsRepeatNothing(e.hashes);
    TextsRepeatNothing(e.codes);
    RefsRepeatNothing(e.refs);
  }

  lemma PreferTextLeaf(p: string, f: string)
    ensures TextLeaf(PreferText(p, f)) == TextLeaf(p) + if p == "" && f != "" then 1 else 0
    ensures p == PreferText(p, f) || Before(p, PreferText(p, f))
  {
  }

  /** Exactly how many leaves an upsert has. */
  lemma UpsertLeaves(w: Evidence, l: Evidence, left: Evidence, right: Evidence)
    requires Valid(left) && Valid(right) && ((w == left && l == right) || (w == right && l == left))
    ensures EvidenceLeaves(Upsert(w, l, left, right)) == EvidenceLeaves(w) + Gain(w, l) - Repeats(w)
  {
    hide TextLeaves, RefLeaves, ValueLeaves, PreferAll, TextUnion, RefUnion, PreferText, TextLeaf;
    hide Filled, TextRepeats, RefRepeats, IsEmpty;
    var m := Upsert(w, l, left, right);
    TextUnionLeaves(w.hashes, l.hashes, m.hashes);
    TextUnionLeaves(w.codes, l.codes, m.codes);
    RefUnionLeaves(w.refs, l.refs, m.refs);
    PreferredLeaves(w.optional, l.optional);
    PreferTextLeaf(w.collectedAt, l.collectedAt);
    hide Valid, Distinct, NonEmptyTexts, ElementsOf;
  }

  lemma UpsertNotWorseExactly(w: Evidence, l: Evidence, left: Evidence, right: Evidence)
    requires Valid(left) && Valid(right) && ((w == left && l == right) || (w == right && l == left))
    ensures QualityAtMost(w, Upsert(w, l, left, right)) <==> Repeats(w) <= Gain(w, l)
  {
    UpsertLeaves(w, l, left, right);
    PreferTextLeaf(w.collectedAt, l.collectedAt);
    BeforeIrreflexive(w.collectedAt);
    hide EvidenceLeaves, Repeats, Gain, Before, PreferText, TextUnion, RefUnion, PreferAll, Valid, TextLeaf;
  }

  /** What the better record says stays, what it leaves open is taken from the other one, and the
      elements of the tuples stand in ascending order. */
  lemma WinnerStays(hash: Evidence -> string, left: Evidence, right: Evidence)
    requires Valid(left) && Valid(right) && left.who == right.who
    ensures MergeEvidence(hash, left, right).Some?
    ensures var m, w, l := MergeEvidence(hash, left, right).value, Winner(hash, left, right), Loser(hash, left, right);
      && m.who == w.who && m.level == w.level && |m.optional| == OPTIONAL_FIELDS
      && (forall i :: 0 <= i < OPTIONAL_FIELDS ==>
            m.optional[i] == if IsEmpty(w.optional[i]) && !IsEmpty(l.optional[i]) then l.optional[i] else w.optional[i])
      && m.collectedAt == (if w.collectedAt == "" then l.collectedAt else w.collectedAt)
      && Ascending(m.hashes, Before) && Ascending(m.codes, Before) && Ascending(m.refs, RefBefore)
  {
    hide RankAtLeast, Upsert, Valid;
    UpsertFields(Winner(hash, left, right), Loser(hash, left, right), left, right);
  }

  lemma UpsertFields(w: Evidence, l: Evidence, left: Evidence, right: Evidence)
    requires Valid(w) && Valid(l)
    ensures var m := Upsert(w, l, left, right);
      && m.who == w.who && m.level == w.level && |m.optional| == OPTIONAL_FIELDS
      && (forall i :: 0 <= i < OPTIONAL_FIELDS ==>
            m.optional[i] == if IsEmpty(w.optional[i]) && !IsEmpty(l.optional[i]) then l.optional[i] else w.optional[i])
      && m.collectedAt == (if w.collectedAt == "" then l.collectedAt else w.collectedAt)
      && Ascending(m.hashes, Before) && Ascending(m.codes, Before) && Ascending(m.refs, RefBefore)
  {
    hide TextUnion, RefUnion, Ascending, Distinct, IsEmpty, PreferRicher;
    forall i | 0 <= i < OPTIONAL_FIELDS
      ensures PreferAll(w.optional, l.optional)[i] ==
        if IsEmpty(w.optional[i]) && !IsEmpty(l.optional[i]) then l.optional[i] else w.optional[i]
    {
      assert w.optional[i] in w.optional && l.optional[i] in l.optional;
      PreferredOrOther(w.optional[i], l.optional[i]);
    }
    hide PreferAll, Before, RefBefore, Valid;
  }

  /** Neither order of the two records matters, unless different records share their hash. */
  lemma EvidenceMergeSymmetric(hash: Evidence -> string, left: Evidence, right: Evidence)
    requires hash(left) == hash(right) ==> left == right
    ensures MergeEvidence(hash, left, right) == MergeEvidence(hash, right, left)
  {
    RanksAreTotal(hash, left, right);
    UpsertSymmetric(left, right, left, right);
    UpsertSymmetric(right, left, left, right);
    hide RankAtLeast, Upsert;
  }

  lemma RanksAreTotal(hash: Evidence -> string, a: Evidence, b: Evidence)
    ensures RankAtLeast(hash, a, b) || RankAtLeast(hash, b, a)
    ensures RankAtLeast(hash, a, b) && RankAtLeast(hash, b, a) ==> hash(a) == hash(b)
  {
    BeforeTotal(a.collectedAt, b.collectedAt);
    BeforeTotal(hash(a), hash(b));
    BeforeTransitive(a.collectedAt, b.collectedAt, a.collectedAt);
    BeforeTransitive(hash(a), hash(b), hash(a));
    BeforeIrreflexive(a.collectedAt);
    BeforeIrreflexive(hash(a));
    hide EvidenceLeaves, Before;
  }

  lemma UpsertSymmetric(w: Evidence, l: Evidence, left: Evidence, right: Evidence)
    ensures Upsert(w, l, left, right) == Upsert(w, l, right, left)
  {
    assert ElementsOf(left.hashes) + ElementsOf(right.hashes) == ElementsOf(right.hashes) + ElementsOf(left.hashes);
    assert ElementsOf(left.codes) + ElementsOf(right.codes) == ElementsOf(right.codes) + ElementsOf(left.codes);
    assert ElementsOf(left.refs) + ElementsOf(right.refs) == ElementsOf(right.refs) + ElementsOf(left.refs);
    hide ElementsOf, Ascending, Distinct, PreferAll, PreferText;
  }

  /** The better of two records, by rank; the left one when they are equal. */
  function Winner(hash: Evidence -> string, left: Evidence, right: Evidence): Evidence {
    if RankAtLeast(hash, left, right) then left else right
  }

  function Loser(hash: Evidence -> string, left: Evidence, right: Evidence): Evidence {
    if RankAtLeast(hash, left, right) then right else left
  }

  /** The merge is at least as good as both records exactly when the better one repeats no more
      leaves than the other one brings. */
  lemma MergeNotWorseExactly(hash: Evidence -> string, left: Evidence, right: Evidence)
    requires Valid(left) && Valid(right) && left.who == right.who
    ensures var m, w, l := MergeEvidence(hash, left, right), Winner(hash, left, right), Loser(hash, left, right);
      && m.Some? && Valid(m.value) && DuplicateFree(m.value) && m.value.who == left.who
      && (QualityAtMost(left, m.value) && QualityAtMost(right, m.value) <==> Repeats(w) <= Gain(w, l))
  {
    hide Valid, DuplicateFree, Repeats, Gain, EvidenceLeaves, Before, Upsert;
    var w, l := Winner(hash, left, right), Loser(hash, left, right);
    RankIsQuality(hash, left, right);
    hide RankAtLeast;
    UpsertFacts(w, l, left, right);
    UpsertNotWorseExactly(w, l, left, right);
    if QualityAtMost(w, Upsert(w, l, left, right)) {
      QualityTransitive(l, w, Upsert(w, l, left, right));
    }
    hide QualityAtMost;
  }

  lemma UpsertFacts(w: Evidence, l: Evidence, left: Evidence, right: Evidence)
    requires Valid(left) && Valid(right) && ((w == left && l == right) || (w == right && l == left))
    ensures var m := Upsert(w, l, left, right); m.who == w.who && Valid(m) && DuplicateFree(m)
  {
    UpsertValid(w, l, left, right);
  }

  /** Without repetitions the merge is never worse than either record. */
  lemma MergeNotWorse(hash: Evidence -> string, left: Evidence, right: Evidence)
    requires Valid(left) && Valid(right) && RepeatFree(left) && RepeatFree(right) && left.who == right.who
    ensures var m := MergeEvidence(hash, left, right);
      && m.Some? && Valid(m.value) && RepeatFree(m.value) && m.value.who == left.who
      && QualityAtMost(left, m.value) && QualityAtMost(right, m.value)
  {
    MergeNotWorseExactly(hash, left, right);
    RepeatFreeExactly(Winner(hash, left, right));
    RepeatFreeExactly(MergeEvidence(hash, left, right).value);
    hide Valid, RepeatFree, DuplicateFree, MergeEvidence, Repeats, Gain, QualityAtMost;
  }

  /** A record merged with itself keeps its quality exactly when it repeats nothing. */
  lemma SelfMergeExactly(hash: Evidence -> string, e: Evidence)
    requires Valid(e)
    ensures MergeEvidence(hash, e, e).Some? && (QualityAtMost(e, MergeEvidence(hash, e, e).value) <==> RepeatFree(e))
  {
    MergeNotWorseExactly(hash, e, e);
    RepeatFreeExactly(e);
    NothingFilled(e.optional);
    hide Valid, RepeatFree, DuplicateFree, MergeEvidence, Repeats, QualityAtMost, Filled, NonEmptyTexts, ElementsOf;
    assert NonEmptyTexts(e.hashes) - NonEmptyTexts(e.hashes) == {}
      && NonEmptyTexts(e.codes) - NonEmptyTexts(e.codes) == {};
    assert ElementsOf(e.refs) - ElementsOf(e.refs) == {};
  }

  lemma {:induction false} NothingFilled(s: seq<Value>)
    ensures Filled(s, s) == 0
  {
    if s != [] {
      NothingFilled(s[..|s| - 1]);
    }
  }

  /** So a record that carries a hash twice is worse after it is merged with itself. */
  lemma DuplicatesCanLoseLeaves(hash: Evidence -> string, e: Evidence)
    requires Valid(e) && e.hashes == ["h", "h"]
    ensures MergeEvidence(hash, e, e).Some? && !QualityAtMost(e, MergeEvidence(hash, e, e).value)
  {
    SelfMergeExactly(hash, e);
    assert e.hashes[0] == e.hashes[1];
    hide MergeEvidence, QualityAtMost, Valid;
  }

  // ----- Folding any number of records

  /** The records of one key, merged one after the other. */
  function Fold(hash: Evidence -> string, es: seq<Evidence>): Option<Evidence> {
    if es == [] then None
    else if |es| == 1 then Some(es[0])
    else match Fold(hash, es[..|es| - 1])
         case None => None
         case Some(acc) => MergeEvidence(hash, acc, es[|es| - 1])
  }

  ghost predicate AllValid(es: seq<Evidence>) {
    forall e :: e in es ==> Valid(e)
  }

  ghost predicate Agree(es: seq<Evidence>) {
    forall d, e :: d in es && e in es ==> d.who == e.who
  }

  /** What `m` owes to the records merged into it, said of the records as a set. */
  ghost predicate Summarises(es: seq<Evidence>, m: Evidence) {
    Valid(m) && SummarisesScalars(es, m) && SummarisesTuples(es, m)
  }

  ghost predicate SummarisesScalars(es: seq<Evidence>, m: Evidence) {
    && |m.optional| == OPTIONAL_FIELDS && (forall e :: e in es ==> e.who == m.who)
    && (forall e :: e in es ==> LevelRank(e.level) <= LevelRank(m.level)) && SomeHasLevel(es, m.level)
    && (m.collectedAt != "" <==> SomeIsDated(es))
    && (forall i :: 0 <= i < OPTIONAL_FIELDS ==> (!IsEmpty(m.optional[i]) <==> SomeFills(es, i)))
  }

  ghost predicate SummarisesTuples(es: seq<Evidence>, m: Evidence) {
    && (forall x :: x in m.hashes <==> SomeHasHash(es, x))
    && (forall x :: x in m.codes <==> SomeHasCode(es, x))
    && (forall x :: x in m.refs <==> SomeHasRef(es, x))
  }

  ghost predicate SomeHasLevel(es: seq<Evidence>, l: Level) { exists e :: e in es && e.level == l }
  ghost predicate SomeHasHash(es: seq<Evidence>, x: string) { exists e :: e in es && x in e.hashes }
  ghost predicate SomeHasCode(es: seq<Evidence>, x: string) { exists e :: e in es && x in e.codes }
  ghost predicate SomeHasRef(es: seq<Evidence>, x: Ref) { exists e :: e in es && x in e.refs }
  ghost predicate SomeIsDated(es: seq<Evidence>) { exists e :: e in es && e.collectedAt != "" }
  ghost predicate SomeFills(es: seq<Evidence>, i: nat) {
    exists e :: e in es && i < |e.optional| && !IsEmpty(e.optional[i])
  }

  lemma ExtendWitnesses(front: seq<Evidence>, last: Evidence)
    ensures forall l :: SomeHasLevel(front + [last], l) <==> SomeHasLevel(front, l) || last.level == l
    ensures forall x :: SomeHasHash(front + [last], x) <==> SomeHasHash(front, x) || x in last.hashes
    ensures forall x :: SomeHasCode(front + [last], x) <==> SomeHasCode(front, x) || x in last.codes
    ensures forall x :: SomeHasRef(front + [last], x) <==> SomeHasRef(front, x) || x in last.refs
    ensures SomeIsDated(front + [last]) <==> SomeIsDated(front) || last.collectedAt != ""
    ensures forall i: nat :: SomeFills(front + [last], i) <==>
      SomeFills(front, i) || (i < |last.optional| && !IsEmpty(last.optional[i]))
  {
    var es := front + [last];
    assert last in es && forall e :: e in es <==> e in front || e == last;
    forall l | SomeHasLevel(front, l) ensures SomeHasLevel(es, l) {
      var e :| e in front && e.level == l;
      assert e in es;
    }
    forall x | SomeHasHash(front, x) ensures SomeHasHash(es, x) {
      var e :| e in front && x in e.hashes;
      assert e in es;
    }
    forall x | SomeHasCode(front, x) ensures SomeHasCode(es, x) { var e :| e in front && x in e.codes; assert e in es; }
    forall x | SomeHasRef(front, x) ensures SomeHasRef(es, x) { var e :| e in front && x in e.refs; assert e in es; }
    forall i: nat | SomeFills(front, i) ensures SomeFills(es, i) {
      var e :| e in front && i < |e.optional| && !IsEmpty(e.optional[i]); assert e in es;
    }
  }

  lemma PreferAllEmptiness(p: seq<Value>, f: seq<Value>, i: nat)
    requires |p| == |f| && i < |p|
    ensures IsEmpty(PreferAll(p, f)[i]) <==> IsEmpty(p[i]) && IsEmpty(f[i])
  {
    EmptyOnlyIfBoth(p[i], f[i]);
  }

  /** The merge of two records, field by field. */
  lemma MergeFacts(hash: Evidence -> string, a: Evidence, b: Evidence)
    requires Valid(a) && Valid(b) && a.who == b.who
    ensures MergeEvidence(hash, a, b).Some?
    ensures var m := MergeEvidence(hash, a, b).value;
      && Valid(m) && m.who == a.who
      && m.level == (if LevelRank(a.level) >= LevelRank(b.level) then a.level else b.level)
      && m.hashes == TextUnion(a.hashes, b.hashes) && m.codes == TextUnion(a.codes, b.codes)
      && m.refs == RefUnion(a.refs, b.refs)
      && (m.collectedAt != "" <==> a.collectedAt != "" || b.collectedAt != "")
      && forall i :: 0 <= i < OPTIONAL_FIELDS ==>
          (IsEmpty(m.optional[i]) <==> IsEmpty(a.optional[i]) && IsEmpty(b.optional[i]))
  {
    var (winner, loser) := if RankAtLeast(hash, a, b) then (a, b) else (b, a);
    UpsertValid(winner, loser, a, b);
    forall i | 0 <= i < OPTIONAL_FIELDS
      ensures IsEmpty(PreferAll(winner.optional, loser.optional)[i]) <==>
        IsEmpty(a.optional[i]) && IsEmpty(b.optional[i])
    {
      PreferAllEmptiness(winner.optional, loser.optional, i);
    }
    hide TextUnion, RefUnion, Before, EvidenceLeaves, PreferAll, IsEmpty, DuplicateFree;
  }

  lemma AddsTuples(front: seq<Evidence>, acc: Evidence, last: Evidence, m: Evidence)
    requires SummarisesTuples(front, acc)
    requires m.hashes == TextUnion(acc.hashes, last.hashes) && m.codes == TextUnion(acc.codes, last.codes)
    requires m.refs == RefUnion(acc.refs, last.refs)
    ensures SummarisesTuples(front + [last], m)
  {
    ExtendWitnesses(front, last);
    hide TextUnion, RefUnion, SomeHasHash, SomeHasCode, SomeHasRef;
  }

  lemma AddsScalars(front: seq<Evidence>, acc: Evidence, last: Evidence, m: Evidence)
    requires SummarisesScalars(front, acc) && Valid(last) && acc.who == last.who == m.who
      && |m.optional| == OPTIONAL_FIELDS
    requires m.level == (if LevelRank(acc.level) >= LevelRank(last.level) then acc.level else last.level)
    requires m.collectedAt != "" <==> acc.collectedAt != "" || last.collectedAt != ""
    requires forall i :: 0 <= i < OPTIONAL_FIELDS ==>
      (IsEmpty(m.optional[i]) <==> IsEmpty(acc.optional[i]) && IsEmpty(last.optional[i]))
    ensures SummarisesScalars(front + [last], m)
  {
    ExtendWitnesses(front, last);
    hide SomeHasLevel, SomeIsDated, SomeFills, IsEmpty;
  }

  lemma MergeAddsOne(hash: Evidence -> string, front: seq<Evidence>, acc: Evidence, last: Evidence)
    requires Summarises(front, acc) && Valid(last) && acc.who == last.who
    ensures MergeEvidence(hash, acc, last).Some? && Summarises(front + [last], MergeEvidence(hash, acc, last).value)
  {
    MergeFacts(hash, acc, last);
    hide MergeEvidence, TextUnion, RefUnion, SummarisesScalars, SummarisesTuples;
    AddsTuples(front, acc, last, MergeEvidence(hash, acc, last).value);
    AddsScalars(front, acc, last, MergeEvidence(hash, acc, last).value);
  }

  lemma SummariseOne(e: Evidence)
    requires Valid(e)
    ensures Summarises([e], e)
  {
    ExtendWitnesses([], e);
    assert [] + [e] == [e];
  }

  /** A fold succeeds exactly when all records agree on their identity, and then summarises them. */
  lemma {:induction false} FoldSummarises(hash: Evidence -> string, es: seq<Evidence>)
    requires es != [] && AllValid(es)
    ensures Fold(hash, es).Some? <==> Agree(es)
    ensures Fold(hash, es).Some? ==> Summarises(es, Fold(hash, es).value)
  {
    if |es| == 1 {
      SummariseOne(es[0]);
      assert es == [es[0]];
    } else {
      var front, last := es[..|es| - 1], es[|es| - 1];
      assert es == front + [last];
      assert forall e :: e in front ==> e in es;
      assert last in es && front[0] in front;
      FoldSummarises(hash, front);
      if Fold(hash, front).Some? && Fold(hash, front).value.who == last.who {
        MergeAddsOne(hash, front, Fold(hash, front).value, last);
      }
      hide Summarises, MergeEvidence;
    }
  }

  /** Folding records without repetitions never lowers quality: the result is at least as good as each. */
  lemma {:induction false} FoldNotWorse(hash: Evidence -> string, es: seq<Evidence>)
    requires es != [] && AllValid(es) && Agree(es) && forall e :: e in es ==> RepeatFree(e)
    ensures Fold(hash, es).Some?
    ensures Valid(Fold(hash, es).value) && RepeatFree(Fold(hash, es).value) && Fold(hash, es).value.who == es[0].who
    ensures forall e :: e in es ==> QualityAtMost(e, Fold(hash, es).value)
  {
    hide Valid, RepeatFree, MergeEvidence;
    if |es| == 1 {
      assert es[0] in es;
    } else {
      var front, last := es[..|es| - 1], es[|es| - 1];
      assert es == front + [last] && last in es && es[0] in es && front[0] == es[0];
      assert forall e :: e in front ==> e in es;
      FoldNotWorse(hash, front);
      var acc := Fold(hash, front).value;
      MergeNotWorse(hash, acc, last);
      var m := MergeEvidence(hash, acc, last).value;
      forall e | e in es ensures QualityAtMost(e, m) {
        if e in front {
          QualityTransitive(e, acc, m);
        }
      }
    }
  }

  /** The same records in another order or grouping: success, level, filled fields and the elements
      of every tuple are the same. */
  lemma FoldOrderIndependent(hash: Evidence -> string, es: seq<Evidence>, fs: seq<Evidence>)
    requires es != [] && fs != [] && AllValid(es) && (forall e :: e in es <==> e in fs)
    ensures Fold(hash, es).Some? <==> Fold(hash, fs).Some?
    ensures Fold(hash, es).Some? ==>
      var m, n := Fold(hash, es).value, Fold(hash, fs).value;
      && m.who == n.who && m.level == n.level
      && (forall x :: x in m.hashes <==> x in n.hashes) && (forall x :: x in m.codes <==> x in n.codes)
      && (forall x :: x in m.refs <==> x in n.refs)
      && (m.collectedAt != "" <==> n.collectedAt != "")
      && (|m.optional| == |n.optional| == OPTIONAL_FIELDS)
      && forall i :: 0 <= i < OPTIONAL_FIELDS ==> (IsEmpty(m.optional[i]) <==> IsEmpty(n.optional[i]))
  {
    FoldSummarises(hash, es);
    FoldSummarises(hash, fs);
    hide Valid, Fold, IsEmpty;
    assert Agree(es) <==> Agree(fs);
    if Fold(hash, es).Some? {
      assert es[0] in fs;
      SameWitnesses(es, fs);
    }
  }

  lemma SameWitnesses(es: seq<Evidence>, fs: seq<Evidence>)
    requires forall e :: e in es <==> e in fs
    ensures forall l :: SomeHasLevel(es, l) <==> SomeHasLevel(fs, l)
    ensures forall x :: SomeHasHash(es, x) <==> SomeHasHash(fs, x)
    ensures forall x :: SomeHasCode(es, x) <==> SomeHasCode(fs, x)
    ensures forall x :: SomeHasRef(es, x) <==> SomeHasRef(fs, x)
    ensures SomeIsDated(es) <==> SomeIsDated(fs)
    ensures forall i: nat :: SomeFills(es, i) <==> SomeFills(fs, i)
  {
  }

  // ----- The update loop

  type Key = (string, string)

  function KeyOf(e: Evidence): Key {
    (e.who.resumeId, e.who.evidenceId)
  }

  function Flatten(groups: seq<seq<Evidence>>): seq<Evidence> {
    if groups == [] then [] else Flatten(groups[..|groups| - 1]) + groups[|groups| - 1]
  }

  /** The records of one key, in order. */
  function OfKey(es: seq<Evidence>, key: Key): seq<Evidence> {
    if es == [] then []
    else OfKey(es[..|es| - 1], key) + if KeyOf(es[|es| - 1]) == key then [es[|es| - 1]] else []
  }

  /** The dictionary after the records in `es`: the fold of every key seen so far. */
  ghost predicate MergedSoFar(hash: Evidence -> string, es: seq<Evidence>, merged: map<Key, Evidence>) {
    forall k :: (k in merged <==> OfKey(es, k) != []) &&
      (k in merged ==> Fold(hash, OfKey(es, k)) == Some(merged[k]))
  }

  lemma FoldSnoc(hash: Evidence -> string, before: seq<Evidence>, e: Evidence)
    ensures Fold(hash, before + [e]) ==
      if before == [] then Some(e)
      else if Fold(hash, before).None? then None
      else MergeEvidence(hash, Fold(hash, before).value, e)
  {
    assert (before + [e])[..|before|] == before;
  }

  lemma OfKeySnoc(es: seq<Evidence>, e: Evidence, key: Key)
    ensures OfKey(es + [e], key) == OfKey(es, key) + if KeyOf(e) == key then [e] else []
  {
    assert (es + [e])[..|es|] == es;
  }

  lemma OneMoreRecord(hash: Evidence -> string, es: seq<Evidence>, merged: map<Key, Evidence>, e: Evidence,
                      value: Evidence)
    requires MergedSoFar(hash, es, merged)
    requires if KeyOf(e) in merged then MergeEvidence(hash, merged[KeyOf(e)], e) == Some(value) else value == e
    ensures MergedSoFar(hash, es + [e], merged[KeyOf(e) := value])
  {
    hide MergeEvidence, Fold, OfKey;
    var merged' := merged[KeyOf(e) := value];
    forall k
      ensures k in merged' <==> OfKey(es + [e], k) != []
      ensures k in merged' ==> Fold(hash, OfKey(es + [e], k)) == Some(merged'[k])
    {
      OfKeySnoc(es, e, k);
      if k == KeyOf(e) {
        FoldSnoc(hash, OfKey(es, k), e);
      } else {
        assert OfKey(es, k) + [] == OfKey(es, k);
      }
    }
  }

  /** A mismatch met on the way leaves some key without a fold. */
  lemma {:induction false} MismatchStays(hash: Evidence -> string, es: seq<Evidence>, rest: seq<Evidence>, key: Key)
    requires OfKey(es, key) != [] && Fold(hash, OfKey(es, key)).None?
    ensures OfKey(es + rest, key) != [] && Fold(hash, OfKey(es + rest, key)).None?
    decreases |rest|
  {
    hide MergeEvidence, Fold, OfKey;
    if rest == [] {
      assert es + rest == es;
    } else {
      var front, last := rest[..|rest| - 1], rest[|rest| - 1];
      MismatchStays(hash, es, front, key);
      assert es + rest == (es + front) + [last];
      OfKeySnoc(es + front, last, key);
      FoldSnoc(hash, OfKey(es + front, key), last);
      assert OfKey(es + front, key) + [] == OfKey(es + front, key);
    }
  }

  /** Some key's records cannot be folded. */
  ghost predicate SomeMismatch(hash: Evidence -> string, es: seq<Evidence>) {
    exists k :: OfKey(es, k) != [] && Fold(hash, OfKey(es, k)).None?
  }

  method MergeUpdates(hash: Evidence -> string, groups: seq<seq<Evidence>>)
    returns (result: Option<seq<Evidence>>, ghost merged: map<Key, Evidence>)
    ensures result.None? <==> SomeMismatch(hash, Flatten(groups))
    ensures result.Some? ==> MergedSoFar(hash, Flatten(groups), merged)
    ensures result.Some? ==> forall x :: x in result.value ==>
      Fold(hash, OfKey(Flatten(groups), KeyOf(x))) == Some(x)
    ensures result.Some? ==> forall i, j :: 0 <= i < j < |result.value| ==>
      PairBefore(KeyOf(result.value[i]), KeyOf(result.value[j]))
    ensures result.Some? ==> forall e :: e in Flatten(groups) ==> SomeWithKey(result.value, KeyOf(e))
  {
    var acc: map<Key, Evidence> := map[];
    merged := map[];
    for g := 0 to |groups|
      invariant MergedSoFar(hash, Flatten(groups[..g]), acc)
    {
      var group := groups[g];
      ghost var done := Flatten(groups[..g]);
      assert groups[..g + 1][..g] == groups[..g];
      assert done + [] == done;
      for i := 0 to |group|
        invariant MergedSoFar(hash, done + group[..i], acc)
      {
        var e := group[i];
        assert done + group[..i + 1] == done + group[..i] + [e];
        var value := e;
        if KeyOf(e) in acc {
          var m := MergeEvidence(hash, acc[KeyOf(e)], e);
          if m.None? {
            MismatchFound(hash, groups, g, i, acc);
            return None, merged;
          }
          value := m.value;
        }
        OneMoreRecord(hash, done + group[..i], acc, e, value);
        acc := acc[KeyOf(e) := value];
      }
      assert group[..|group|] == group;
    }
    assert groups[..|groups|] == groups;
    merged := acc;
    KeysStay(hash, Flatten(groups), merged);
    result := Some(InKeyOrder(acc));
    forall e | e in Flatten(groups) ensures SomeWithKey(result.value, KeyOf(e)) {
      OfKeyHas(Flatten(groups), e, KeyOf(e));
      assert merged[KeyOf(e)] in result.value;
    }
  }

  ghost predicate SomeWithKey(es: seq<Evidence>, key: Key) {
    exists x :: x in es && KeyOf(x) == key
  }

  /** The records of a dictionary, by their keys. */
  function InKeyOrder(merged: map<Key, Evidence>): (r: seq<Evidence>)
    requires forall k :: k in merged ==> KeyOf(merged[k]) == k
    ensures forall x :: x in r <==> x in merged.Values
    ensures forall i, j :: 0 <= i < j < |r| ==> PairBefore(KeyOf(r[i]), KeyOf(r[j]))
  {
    PairsAreOrdered();
    var keys := SortedBy(merged.Keys, PairBefore);
    var r := seq(|keys|, i requires 0 <= i < |keys| => merged[keys[i]]);
    AllRecords(merged, keys, r);
    r
  }

  lemma AllRecords(merged: map<Key, Evidence>, keys: seq<Key>, r: seq<Evidence>)
    requires forall k :: k in keys <==> k in merged
    requires |r| == |keys| && forall i :: 0 <= i < |r| ==> r[i] == merged[keys[i]]
    ensures forall x :: x in r <==> x in merged.Values
  {
    forall x | x in merged.Values ensures x in r {
      var k :| k in merged && merged[k] == x;
      assert k in keys;
      var i :| 0 <= i < |keys| && keys[i] == k;
      assert r[i] == x;
    }
    forall x | x in r ensures x in merged.Values {
      var i :| 0 <= i < |r| && r[i] == x;
      assert keys[i] in keys;
    }
  }

  /** The records of one key are those of the list that have it, as often as they are there. */
  lemma {:induction false} OfKeyHas(es: seq<Evidence>, e: Evidence, key: Key)
    ensures multiset(OfKey(es, key))[e] == if KeyOf(e) == key then multiset(es)[e] else 0
    ensures e in OfKey(es, key) <==> e in es && KeyOf(e) == key
  {
    if es != [] {
      var front, last := es[..|es| - 1], es[|es| - 1];
      OfKeyHas(front, e, key);
      assert es == front + [last];
    }
  }

  lemma MergeKeepsIdentity(hash: Evidence -> string, a: Evidence, b: Evidence)
    ensures var m := MergeEvidence(hash, a, b); m.Some? ==> a.who == b.who == m.value.who
  {
    hide RankAtLeast, TextUnion, RefUnion, PreferAll;
  }

  lemma {:induction false} FoldHasKey(hash: Evidence -> string, es: seq<Evidence>, key: Key)
    requires Fold(hash, es).Some? && forall e :: e in es ==> KeyOf(e) == key
    ensures KeyOf(Fold(hash, es).value) == key
  {
    if |es| > 1 {
      var front, last := es[..|es| - 1], es[|es| - 1];
      assert es == front + [last];
      FoldHasKey(hash, front, key);
      MergeKeepsIdentity(hash, Fold(hash, front).value, last);
      hide MergeEvidence;
    }
  }

  lemma KeysStay(hash: Evidence -> string, es: seq<Evidence>, merged: map<Key, Evidence>)
    requires MergedSoFar(hash, es, merged)
    ensures forall k :: k in merged ==> KeyOf(merged[k]) == k
  {
    forall k | k in merged ensures KeyOf(merged[k]) == k {
      forall e | e in OfKey(es, k) ensures KeyOf(e) == k {
        OfKeyHas(es, e, k);
      }
      FoldHasKey(hash, OfKey(es, k), k);
    }
  }

  lemma MismatchFound(hash: Evidence -> string, groups: seq<seq<Evidence>>, g: nat, i: nat, acc: map<Key, Evidence>)
    requires g < |groups| && i < |groups[g]| && MergedSoFar(hash, Flatten(groups[..g]) + groups[g][..i], acc)
    requires KeyOf(groups[g][i]) in acc && MergeEvidence(hash, acc[KeyOf(groups[g][i])], groups[g][i]).None?
    ensures SomeMismatch(hash, Flatten(groups))
  {
    hide MergeEvidence, Flatten;
    var done := Flatten(groups[..g]);
    var e := groups[g][i];
    var es := done + groups[g][..i];
    OfKeySnoc(es, e, KeyOf(e));
    FoldSnoc(hash, OfKey(es, KeyOf(e)), e);
    var rest := FlattenSplits(groups, g, i + 1);
    assert done + groups[g][..i + 1] == es + [e];
    MismatchStays(hash, es + [e], rest, KeyOf(e));
  }

  lemma {:induction false} FlattenSplits(groups: seq<seq<Evidence>>, g: nat, i: nat) returns (rest: seq<Evidence>)
    requires g < |groups| && i <= |groups[g]|
    ensures Flatten(groups) == Flatten(groups[..g]) + groups[g][..i] + rest
    decreases |groups|
  {
    var front, last := groups[..|groups| - 1], groups[|groups| - 1];
    if g == |groups| - 1 {
      rest := last[i..];
      assert last == last[..i] + last[i..];
    } else {
      rest := FlattenSplits(front, g, i);
      assert front[..g] == groups[..g];
      rest := rest + last;
    }
  }
}
