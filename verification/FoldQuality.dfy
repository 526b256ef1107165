/**
 When folding evidence records lowers quality: the leaves of a fold are those of everything its records
 hold, each counted once, while a record that repeats elements counts some of its own twice.
 */
module FoldQuality {
  import opened Basics
  import opened Ordering
  import opened Values
  import opened EvidenceMerge

  ghost function HashesOf(es: seq<Evidence>): set<string> {
    set e, x | e in es && x in e.hashes && x != "" :: x
  }

  ghost function CodesOf(es: seq<Evidence>): set<string> {
    set e, x | e in es && x in e.codes && x != "" :: x
  }

  ghost function RefsOf(es: seq<Evidence>): set<Ref> {
    set e, x | e in es && x in e.refs :: x
  }

  /** How many of the first `n` optional fields some record fills. */
  ghost function FieldsOf(es: seq<Evidence>, n: nat): nat {
    if n == 0 then 0 else FieldsOf(es, n - 1) + if SomeFills(es, n - 1) then 1 else 0
  }

  function IdentityLeaves(who: Identity): nat {
    TextLeaf(who.evidenceId) + TextLeaf(who.source) + TextLeaf(who.provider) + TextLeaf(who.resumeId)
    + TextLeaf(who.candidateKeyHash) + 1
  }

  /** The leaves of all records of one identity together, each counted once. */
  ghost function Together(es: seq<Evidence>): nat
    requires es != []
  {
    IdentityLeaves(es[0].who) + |HashesOf(es)| + |CodesOf(es)| + 3 * |RefsOf(es)| + FieldsOf(es, OPTIONAL_FIELDS)
    + if SomeIsDated(es) then 1 else 0
  }

  /** What the other records add to those of `e`. */
  ghost function Added(es: seq<Evidence>, e: Evidence): int
    requires es != []
  {
    Together(es) - Together([e])
  }

  lemma {:induction false} FieldLeaves(e: Evidence, n: nat)
    requires Valid(e) && n <= OPTIONAL_FIELDS
    ensures ValueLeaves(e.optional[..n]) == FieldsOf([e], n)
  {
    if n > 0 {
      FieldLeaves(e, n - 1);
      assert e.optional[..n][..n - 1] == e.optional[..n - 1] && e.optional[n - 1] in e.optional;
      assert SomeFills([e], n - 1) <==> !IsEmpty(e.optional[n - 1]) by { assert e in [e]; }
    }
  }

  /** A single record counts its repeats on top of what it holds. */
  lemma OwnLeaves(e: Evidence)
    requires Valid(e)
    ensures EvidenceLeaves(e) == Together([e]) + Repeats(e)
  {
    assert e in [e];
    assert HashesOf([e]) == NonEmptyTexts(e.hashes) && CodesOf([e]) == NonEmptyTexts(e.codes);
    assert RefsOf([e]) == ElementsOf(e.refs);
    TextLeavesAre(e.hashes);
    TextLeavesAre(e.codes);
    RefLeavesAre(e.refs);
    FieldLeaves(e, OPTIONAL_FIELDS);
    assert e.optional[..OPTIONAL_FIELDS] == e.optional;
    assert SomeIsDated([e]) <==> e.collectedAt != "";
    hide TextLeaves, RefLeaves, ValueLeaves, HashesOf, CodesOf, RefsOf, FieldsOf, NonEmptyTexts, ElementsOf;
  }

  lemma {:induction false} FieldsAgree(es: seq<Evidence>, m: Evidence, n: nat)
    requires SummarisesScalars(es, m) && n <= OPTIONAL_FIELDS
    ensures FieldsOf([m], n) == FieldsOf(es, n)
  {
    if n > 0 {
      FieldsAgree(es, m, n - 1);
      assert SomeFills([m], n - 1) <==> !IsEmpty(m.optional[n - 1]) by { assert m in [m]; }
    }
  }

  lemma ElementsAgree(es: seq<Evidence>, m: Evidence)
    requires SummarisesTuples(es, m)
    ensures HashesOf([m]) == HashesOf(es) && CodesOf([m]) == CodesOf(es) && RefsOf([m]) == RefsOf(es)
  {
    assert m in [m];
    forall x ensures x in HashesOf([m]) <==> x in HashesOf(es) {
      assert x in m.hashes <==> SomeHasHash(es, x);
    }
    forall x ensures x in CodesOf([m]) <==> x in CodesOf(es) {
      assert x in m.codes <==> SomeHasCode(es, x);
    }
    forall x ensures x in RefsOf([m]) <==> x in RefsOf(es) {
      assert x in m.refs <==> SomeHasRef(es, x);
    }
  }

  /** What summarises the records holds what they hold together. */
  lemma SummaryHolds(es: seq<Evidence>, m: Evidence)
    requires es != [] && Summarises(es, m)
    ensures Together([m]) == Together(es)
  {
    ElementsAgree(es, m);
    FieldsAgree(es, m, OPTIONAL_FIELDS);
    assert m in [m] && es[0] in es;
    assert SomeIsDated([m]) <==> m.collectedAt != "";
    hide HashesOf, CodesOf, RefsOf, FieldsOf;
  }

  lemma LastMerge(hash: Evidence -> string, es: seq<Evidence>)
    requires |es| >= 2 && AllValid(es) && Agree(es)
    ensures var front := es[..|es| - 1];
      && Fold(hash, front).Some? && Valid(Fold(hash, front).value) && Valid(es[|es| - 1])
      && Fold(hash, front).value.who == es[|es| - 1].who
      && Fold(hash, es) == MergeEvidence(hash, Fold(hash, front).value, es[|es| - 1])
  {
    hide Valid, MergeEvidence;
    var front, last := es[..|es| - 1], es[|es| - 1];
    assert es == front + [last] && last in es && front[0] in front;
    assert forall e :: e in front ==> e in es;
    FoldSummarises(hash, front);
  }

  /** The leaves of a fold, whatever the order: everything its records hold, counted once. */
  lemma FoldLeaves(hash: Evidence -> string, es: seq<Evidence>)
    requires |es| >= 2 && AllValid(es) && Agree(es)
    ensures Fold(hash, es).Some? && Summarises(es, Fold(hash, es).value)
    ensures EvidenceLeaves(Fold(hash, es).value) == Together(es)
  {
    hide Fold, Valid, MergeEvidence, EvidenceLeaves, Repeats, RepeatFree, DuplicateFree, Together;
    hide SummarisesScalars, SummarisesTuples, AllValid, Agree, QualityAtMost, Gain;
    FoldSummarises(hash, es);
    LastMerge(hash, es);
    var m := Fold(hash, es).value;
    MergeNotWorseExactly(hash, Fold(hash, es[..|es| - 1]).value, es[|es| - 1]);
    RepeatFreeExactly(m);
    OwnLeaves(m);
    SummaryHolds(es, m);
  }

  /** The first two components of quality, level and leaves. */
  ghost predicate RankAtMost(a: Evidence, b: Evidence) {
    LevelRank(a.level) < LevelRank(b.level) || (a.level == b.level && EvidenceLeaves(a) <= EvidenceLeaves(b))
  }

  /** No record has a higher level. */
  ghost predicate OnTop(es: seq<Evidence>, e: Evidence) {
    forall d :: d in es ==> LevelRank(d.level) <= LevelRank(e.level)
  }

  lemma TopLevel(es: seq<Evidence>, m: Evidence, e: Evidence)
    requires SummarisesScalars(es, m) && e in es
    ensures LevelRank(e.level) <= LevelRank(m.level)
    ensures OnTop(es, e) <==> e.level == m.level
  {
    hide SomeIsDated, SomeFills, IsEmpty;
    var top :| top in es && top.level == m.level;
  }

  /** No record of two or more ranks above their fold exactly when none of the highest level repeats more
      leaves than the others add. */
  lemma FoldKeepsRankExactly(hash: Evidence -> string, es: seq<Evidence>)
    requires |es| >= 2 && AllValid(es) && Agree(es)
    ensures Fold(hash, es).Some?
    ensures (forall e :: e in es ==> RankAtMost(e, Fold(hash, es).value)) <==>
      (forall e :: e in es && OnTop(es, e) ==> Repeats(e) <= Added(es, e))
  {
    FoldLeaves(hash, es);
    var m := Fold(hash, es).value;
    hide Fold, Together, Repeats, EvidenceLeaves, OnTop, SummarisesScalars, SummarisesTuples, Valid;
    forall e | e in es ensures RankAtMost(e, m) <==> (OnTop(es, e) ==> Repeats(e) <= Added(es, e)) {
      OwnLeaves(e);
      TopLevel(es, m, e);
    }
  }

  /** With the date, which counts only for a record that repeats as much as the others add. */
  lemma FoldNotWorseExactly(hash: Evidence -> string, es: seq<Evidence>)
    requires |es| >= 2 && AllValid(es) && Agree(es)
    ensures Fold(hash, es).Some?
    ensures var m := Fold(hash, es).value;
      (forall e :: e in es ==> QualityAtMost(e, m)) <==>
      (forall e :: e in es && OnTop(es, e) ==>
         || Repeats(e) < Added(es, e)
         || (Repeats(e) == Added(es, e) && (e.collectedAt == m.collectedAt || Before(e.collectedAt, m.collectedAt))))
  {
    FoldLeaves(hash, es);
    var m := Fold(hash, es).value;
    hide Fold, Together, Repeats, EvidenceLeaves, OnTop, SummarisesScalars, SummarisesTuples, Valid, Before;
    forall e | e in es
      ensures QualityAtMost(e, m) <==>
        (OnTop(es, e) ==>
           || Repeats(e) < Added(es, e)
           || (Repeats(e) == Added(es, e) && (e.collectedAt == m.collectedAt || Before(e.collectedAt, m.collectedAt))))
    {
      OwnLeaves(e);
      TopLevel(es, m, e);
    }
  }
}
