/**
 The redaction walk as the code runs it: one object holds the running budget and the counter of
 dropped fields, and recursive methods update both while they loop over the payload.
 */
module Redactor {
  import opened Basics
  import opened Redaction

  /** Entries in front of others, as a loop that appends to a dictionary builds them. */
  function Onto(done: seq<(Key, Data)>, tail: Entries): Entries {
    if done == [] then tail else Entry(done[0].0, done[0].1, Onto(done[1..], tail))
  }

  lemma {:induction false} OntoAppend(done: seq<(Key, Data)>, key: Key, value: Data, tail: Entries)
    ensures Onto(done + [(key, value)], tail) == Onto(done, Entry(key, value, tail))
  {
    if done != [] {
      OntoAppend(done[1..], key, value, tail);
      assert (done + [(key, value)])[1..] == done[1..] + [(key, value)];
    }
  }

  function Behind(done: seq<Data>, tail: Elements): Elements {
    if done == [] then tail else Element(done[0], Behind(done[1..], tail))
  }

  lemma {:induction false} BehindAppend(done: seq<Data>, value: Data, tail: Elements)
    ensures Behind(done + [value], tail) == Behind(done, Element(value, tail))
  {
    if done != [] {
      BehindAppend(done[1..], value, tail);
      assert (done + [value])[1..] == done[1..] + [value];
    }
  }

  /** `whole` is `left` with the entries already done put in front. */
  ghost predicate Extends(whole: Result<(Entries, Walk)>, done: seq<(Key, Data)>, left: Result<(Entries, Walk)>) {
    if left.Fail? then whole == left else whole == Ok((Onto(done, left.value.0), left.value.1))
  }

  ghost predicate ExtendsItems(whole: Result<(Elements, Walk)>, done: seq<Data>, left: Result<(Elements, Walk)>) {
    if left.Fail? then whole == left else whole == Ok((Behind(done, left.value.0), left.value.1))
  }

  lemma OneMoreEntry(whole: Result<(Entries, Walk)>, done: seq<(Key, Data)>, key: Key, value: Data,
                     left: Result<(Entries, Walk)>)
    requires Extends(whole, done, if left.Fail? then left else Ok((Entry(key, value, left.value.0), left.value.1)))
    ensures Extends(whole, done + [(key, value)], left)
  {
    if left.Ok? {
      OntoAppend(done, key, value, left.value.0);
    }
  }

  lemma OneMoreItem(whole: Result<(Elements, Walk)>, done: seq<Data>, value: Data, left: Result<(Elements, Walk)>)
    requires ExtendsItems(whole, done, if left.Fail? then left else Ok((Element(value, left.value.0), left.value.1)))
    ensures ExtendsItems(whole, done + [value], left)
  {
    if left.Ok? {
      BehindAppend(done, value, left.value.0);
    }
  }

  class Projector {
    const sensitive: Sensitive
    var nodes: nat
    var keys: nat
    var reports: multiset<(string, string)>

    ghost function State(): Walk
      reads this
    {
      Walk(Budget(nodes, keys), reports)
    }

    constructor (sensitive: Sensitive)
      ensures this.sensitive == sensitive && State() == EMPTY_WALK
    {
      this.sensitive := sensitive;
      nodes, keys, reports := 0, 0, multiset{};
    }

    method CountNode() returns (ok: bool)
      modifies this`nodes
      ensures ok <==> AddNode(old(State()).budget).Ok?
      ensures ok ==> State() == old(State()).(budget := AddNode(old(State()).budget).value)
    {
      nodes := nodes + 1;
      ok := nodes <= MAX_TOTAL_NODES;
    }

    method CountKeys(count: nat) returns (ok: bool)
      modifies this`keys
      ensures ok <==> AddKeys(old(State()).budget, count).Ok?
      ensures ok ==> State() == old(State()).(budget := AddKeys(old(State()).budget, count).value)
    {
      keys := keys + count;
      ok := keys <= MAX_TOTAL_KEYS;
    }

    /** Checks an allowlist against the budget: every key, every level, every scalar contract. */
    method Validate(a: Allow, depth: nat) returns (refusal: Option<Reason>)
      modifies this`nodes, this`keys
      ensures var r := ValidateAllowlist(sensitive, a, depth, old(State()).budget);
        if refusal.Some? then r == Fail(refusal.value) else r == Ok(State().budget)
      decreases a, 1
    {
      var ok := CountNode();
      if !ok {
        return Some(BudgetExceeded);
      }
      if depth > MAX_DEPTH {
        return Some(TooDeep);
      }
      match a
      case Scalar(c) => refusal := if c.Enum? && c.values == {} then Some(InvalidAllowlist) else None;
      case Fields(fields) =>
        if AllowSize(fields) > MAX_KEYS {
          return Some(InvalidAllowlist);
        }
        ok := CountKeys(AllowSize(fields));
        if !ok {
          return Some(BudgetExceeded);
        }
        refusal := ValidateEntries(fields, depth);
      case Each(child) => refusal := Validate(child, depth + 1);
      case Junk => refusal := Some(InvalidAllowlist);
    }

    method ValidateEntries(fields: AllowFields, depth: nat) returns (refusal: Option<Reason>)
      modifies this`nodes, this`keys
      ensures var r := ValidateFields(sensitive, fields, depth, old(State()).budget);
        if refusal.Some? then r == Fail(refusal.value) else r == Ok(State().budget)
      decreases fields, 0
    {
      hide ValidateAllowlist;
      var rest := fields;
      while rest.AllowField?
        invariant rest == fields || rest < fields
        invariant ValidateFields(sensitive, fields, depth, old(State()).budget) ==
          ValidateFields(sensitive, rest, depth, State().budget)
        decreases rest
      {
        if rest.key.NotAString? || !AllowedName(rest.key.name) || sensitive(rest.key.name).Some? {
          return Some(InvalidAllowlist);
        }
        refusal := Validate(rest.child, depth + 1);
        if refusal.Some? {
          return;
        }
        rest := rest.rest;
      }
      refusal := None;
    }

    /** The projection of one value; on refusal the whole walk is abandoned. */
    method ProjectValue(v: Data, a: Allow, path: string, depth: nat) returns (r: Result<Data>)
      modifies this
      ensures var spec := Project(sensitive, v, a, path, depth, old(State()));
        if r.Fail? then spec == Fail(r.reason) else spec == Ok((r.value, State()))
      decreases v, a, 1
    {
      hide Satisfies;
      var ok := CountNode();
      if !ok {
        return Fail(BudgetExceeded);
      }
      if depth > MAX_DEPTH {
        return Fail(TooDeep);
      }
      match a
      case Scalar(c) => r := if v.Leaf? && Satisfies(v.prim, c) then Ok(v) else Fail(ScalarMismatch);
      case Fields(fields) =>
        if !v.Object? {
          return Fail(ShapeMismatch);
        }
        if Size(v.entries) > MAX_KEYS {
          return Fail(ObjectTooLarge);
        }
        ok := CountKeys(Size(v.entries));
        if !ok {
          return Fail(BudgetExceeded);
        }
        var kept := ProjectFields(v.entries, fields, path, depth);
        r := if kept.Fail? then Fail(kept.reason) else Ok(Object(kept.value));
      case Each(child) =>
        if !v.Array? {
          return Fail(ShapeMismatch);
        }
        if Length(v.elements) > MAX_ARRAY_ITEMS {
          return Fail(ArrayTooLarge);
        }
        var items := ProjectItems(v.elements, child, path, depth);
        r := if items.Fail? then Fail(items.reason) else Ok(Array(items.value));
      case Junk => r := Fail(InvalidAllowlist);
    }

    /** Keeps allowlisted fields and counts every other one. */
    method ProjectFields(e: Entries, fields: AllowFields, path: string, depth: nat) returns (r: Result<Entries>)
      modifies this
      ensures var spec := ProjectEntries(sensitive, e, fields, path, depth, old(State()));
        if r.Fail? then spec == Fail(r.reason) else spec == Ok((r.value, State()))
      decreases e, fields, 0
    {
      hide Project, RuleFor, RedactedPath, SafePath;
      var rest, done := e, [];
      while rest.Entry?
        invariant rest == e || rest < e
        invariant Extends(ProjectEntries(sensitive, e, fields, path, depth, old(State())), done,
                          ProjectEntries(sensitive, rest, fields, path, depth, State()))
        decreases rest
      {
        if rest.key.NotAString? {
          return Fail(InvalidKey);
        }
        var name := rest.key.name;
        var allowed := Child(fields, name);
        if sensitive(name).Some? || allowed.None? {
          reports := reports + multiset{(RuleFor(sensitive, name), RedactedPath(path))};
        } else {
          var value := ProjectValue(rest.value, allowed.value, SafePath(path), depth + 1);
          if value.Fail? {
            return Fail(value.reason);
          }
          OneMoreEntry(ProjectEntries(sensitive, e, fields, path, depth, old(State())), done, rest.key, value.value,
                       ProjectEntries(sensitive, rest.rest, fields, path, depth, State()));
          done := done + [(rest.key, value.value)];
        }
        rest := rest.rest;
      }
      r := Ok(Onto(done, NoEntries));
    }

    method ProjectItems(e: Elements, child: Allow, path: string, depth: nat) returns (r: Result<Elements>)
      modifies this
      ensures var spec := ProjectElements(sensitive, e, child, path, depth, old(State()));
        if r.Fail? then spec == Fail(r.reason) else spec == Ok((r.value, State()))
      decreases e, child, 0
    {
      hide Project, ItemPath;
      var rest, done := e, [];
      while rest.Element?
        invariant rest == e || rest < e
        invariant ExtendsItems(ProjectElements(sensitive, e, child, path, depth, old(State())), done,
                               ProjectElements(sensitive, rest, child, path, depth, State()))
        decreases rest
      {
        var value := ProjectValue(rest.head, child, ItemPath(path), depth + 1);
        if value.Fail? {
          return Fail(value.reason);
        }
        OneMoreItem(ProjectElements(sensitive, e, child, path, depth, old(State())), done, value.value,
                    ProjectElements(sensitive, rest.tail, child, path, depth, State()));
        done := done + [value.value];
        rest := rest.tail;
      }
      r := Ok(Behind(done, NoElements));
    }

    /** The whole public operation: validate on one budget, project on a fresh one, list the report. */
    static method Diagnose(sensitive: Sensitive, payload: Data, allowlist: Allow) returns (r: Result<Projection>)
      ensures r == ProjectDiagnostics(sensitive, payload, allowlist)
    {
      if !allowlist.Fields? {
        return Fail(InvalidAllowlist);
      }
      var validator := new Projector(sensitive);
      var refusal := validator.Validate(allowlist, 0);
      if refusal.Some? {
        return Fail(refusal.value);
      }
      var projector := new Projector(sensitive);
      var value := projector.ProjectValue(payload, allowlist, "root", 0);
      if value.Fail? {
        return Fail(value.reason);
      }
      r := Ok(Projection(value.value, |projector.reports|, Listing(projector.reports)));
    }
  }
}
